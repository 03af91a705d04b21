/**
 The pool's stable sort (Go's `sort.SliceStable`): insertion sort over blocks of twenty, then
 symmetric merges with an in-place rotation.

 The comparison `less` is told the number of the call it answers, so that a rule that is
 inconsistent, or that changes between calls, is covered too: `Consistent` says when it is one
 fixed strict weak order.
 */
module GoSort {

  /** The n-th call of a comparison, answering whether the first element goes before the second. */
  type Less<!T> = (nat, T, T) -> bool

  // ---- the specification: the stable sort ----

  /** `less` answers every call from one strict weak order. */
  ghost predicate Consistent<T(!new)>(less: Less<T>)
  {
    && (forall n: nat, x, y :: less(n, x, y) == less(0, x, y))
    && (forall x, y :: less(0, x, y) ==> !less(0, y, x))
    && (forall x, y, z :: less(0, x, z) ==> less(0, x, y) || less(0, y, z))
  }

  predicate Same<T(!new)>(less: Less<T>, x: T, y: T)
  {
    !less(0, x, y) && !less(0, y, x)
  }

  ghost predicate Sorted<T(!new)>(s: seq<T>, less: Less<T>)
  {
    forall i, j :: 0 <= i < j < |s| ==> !less(0, s[j], s[i])
  }

  /** The elements that tie with `x`, in the order they stand. */
  function Ties<T(!new)>(s: seq<T>, x: T, less: Less<T>): (r: seq<T>)
    ensures forall k :: 0 <= k < |r| ==> Same(less, r[k], x) && r[k] in s
  {
    if s == [] then []
    else (if Same(less, s[0], x) then [s[0]] else []) + Ties(s[1..], x, less)
  }

  /** Puts `y` after every element that does not go after it. */
  function Insert<T(!new)>(s: seq<T>, y: T, less: Less<T>): seq<T>
  {
    if s == [] then [y]
    else if less(0, y, s[|s| - 1]) then Insert(s[..|s| - 1], y, less) + [s[|s| - 1]]
    else s + [y]
  }

  function StableSort<T(!new)>(s: seq<T>, less: Less<T>): seq<T>
  {
    if s == [] then []
    else Insert(StableSort(s[..|s| - 1], less), s[|s| - 1], less)
  }

  /** Ordered, a permutation, and every class of ties in its original order. */
  ghost predicate IsStableSortOf<T(!new)>(r: seq<T>, s: seq<T>, less: Less<T>)
  {
    Sorted(r, less) && forall x :: Ties(r, x, less) == Ties(s, x, less)
  }

  lemma {:induction false} TiesAppend<T(!new)>(s: seq<T>, t: seq<T>, x: T, less: Less<T>)
    ensures Ties(s + t, x, less) == Ties(s, x, less) + Ties(t, x, less)
  {
    if s == [] {
      assert s + t == t;
    } else {
      assert (s + t)[1..] == s[1..] + t;
      TiesAppend(s[1..], t, x, less);
    }
  }

  lemma {:induction false} TiesMember<T(!new)>(s: seq<T>, x: T, less: Less<T>)
    requires Consistent(less)
    ensures x in s <==> x in Ties(s, x, less)
    ensures Ties(s, x, less) == [] <==> forall k :: 0 <= k < |s| ==> !Same(less, s[k], x)
  {
    if s != [] {
      TiesMember(s[1..], x, less);
      assert s == [s[0]] + s[1..];
    }
  }

  lemma {:induction false} InsertKeepsElements<T(!new)>(s: seq<T>, y: T, less: Less<T>)
    ensures multiset(Insert(s, y, less)) == multiset(s) + multiset{y}
  {
    if s == [] {
    } else if less(0, y, s[|s| - 1]) {
      assert s == s[..|s| - 1] + [s[|s| - 1]];
      InsertKeepsElements(s[..|s| - 1], y, less);
    }
  }

  lemma {:induction false} InsertIsSorted<T(!new)>(s: seq<T>, y: T, less: Less<T>)
    requires Consistent(less) && Sorted(s, less)
    ensures Sorted(Insert(s, y, less), less)
  {
    if s == [] {
    } else if less(0, y, s[|s| - 1]) {
      var init, last := s[..|s| - 1], s[|s| - 1];
      InsertIsSorted(init, y, less);
      InsertKeepsElements(init, y, less);
      var r := Insert(init, y, less);
      forall k | 0 <= k < |r| ensures !less(0, last, r[k]) {
        assert r[k] in multiset(r);
        assert r[k] in init || r[k] == y;
      }
    } else {
      assert forall i :: 0 <= i < |s| ==> !less(0, y, s[i]);
    }
  }

  lemma {:induction false} InsertKeepsTies<T(!new)>(s: seq<T>, y: T, x: T, less: Less<T>)
    requires Consistent(less)
    ensures Ties(Insert(s, y, less), x, less) == Ties(s + [y], x, less)
  {
    if s == [] {
      assert s + [y] == [y];
    } else if less(0, y, s[|s| - 1]) {
      var init, last := s[..|s| - 1], s[|s| - 1];
      assert s == init + [last];
      InsertKeepsTies(init, y, x, less);
      TiesAppend(Insert(init, y, less), [last], x, less);
      TiesAppend(init, [y], x, less);
      TiesAppend(init, [last], x, less);
      TiesAppend(s, [y], x, less);
      DistinctTies(y, last, x, less);
    }
  }

  /** Elements that `less` separates are not both tied with `x`. */
  lemma DistinctTies<T(!new)>(y: T, z: T, x: T, less: Less<T>)
    requires Consistent(less) && less(0, y, z)
    ensures !Same(less, y, x) || !Same(less, z, x)
  {
    assert less(0, y, x) || less(0, x, z);
  }

  /** The reference sort orders its input, loses and invents nothing and keeps ties in order. */
  lemma {:induction false} StableSortIsStable<T(!new)>(s: seq<T>, less: Less<T>)
    requires Consistent(less)
    ensures IsStableSortOf(StableSort(s, less), s, less)
    ensures multiset(StableSort(s, less)) == multiset(s)
  {
    if s != [] {
      var init, last := s[..|s| - 1], s[|s| - 1];
      assert s == init + [last];
      StableSortIsStable(init, less);
      InsertIsSorted(StableSort(init, less), last, less);
      InsertKeepsElements(StableSort(init, less), last, less);
      forall x ensures Ties(StableSort(s, less), x, less) == Ties(s, x, less) {
        InsertKeepsTies(StableSort(init, less), last, x, less);
        TiesAppend(StableSort(init, less), [last], x, less);
        TiesAppend(init, [last], x, less);
      }
    }
  }

  /** Two sorted sequences with the same classes of ties are equal: there is one stable sort. */
  lemma {:induction false} StableSortUnique<T(!new)>(r: seq<T>, q: seq<T>, less: Less<T>)
    requires Consistent(less) && Sorted(r, less) && Sorted(q, less)
    requires forall x :: Ties(r, x, less) == Ties(q, x, less)
    ensures r == q
  {
    EmptyTogether(r, q, less);
    EmptyTogether(q, r, less);
    if r != [] {
      FirstIsLeast(r, q, less);
      FirstIsLeast(q, r, less);
      assert Same(less, r[0], q[0]);
      assert Ties(r, r[0], less)[0] == r[0];
      assert Ties(q, r[0], less)[0] == q[0];
      assert r[0] == q[0];
      forall x ensures Ties(r[1..], x, less) == Ties(q[1..], x, less) {
        TiesOfTail(r, x, less);
        TiesOfTail(q, x, less);
      }
      StableSortUnique(r[1..], q[1..], less);
      assert r == [r[0]] + r[1..] && q == [q[0]] + q[1..];
    }
  }

  lemma EmptyTogether<T(!new)>(r: seq<T>, q: seq<T>, less: Less<T>)
    requires Consistent(less) && forall x :: Ties(r, x, less) == Ties(q, x, less)
    ensures r == [] ==> q == []
  {
    if q != [] {
      TiesMember(q, q[0], less);
      assert q[0] in Ties(r, q[0], less);
    }
  }

  lemma TiesOfTail<T(!new)>(s: seq<T>, x: T, less: Less<T>)
    requires s != []
    ensures Ties(s[1..], x, less) == if Same(less, s[0], x) then Ties(s, x, less)[1..] else Ties(s, x, less)
  {
  }

  lemma FirstIsLeast<T(!new)>(r: seq<T>, q: seq<T>, less: Less<T>)
    requires Consistent(less) && r != [] && q != [] && Sorted(q, less)
    requires forall x :: Ties(r, x, less) == Ties(q, x, less)
    ensures !less(0, r[0], q[0])
  {
    TiesMember(r, r[0], less);
    TiesMember(q, r[0], less);
    assert r[0] in q;
  }

  lemma SortedIsFixed<T(!new)>(s: seq<T>, less: Less<T>)
    requires Consistent(less) && Sorted(s, less)
    ensures StableSort(s, less) == s
  {
    StableSortIsStable(s, less);
    StableSortUnique(StableSort(s, less), s, less);
  }

  /** Sorting pieces first changes nothing. */
  lemma SortPieces<T(!new)>(s: seq<T>, t: seq<T>, less: Less<T>)
    requires Consistent(less)
    ensures StableSort(StableSort(s, less) + StableSort(t, less), less) == StableSort(s + t, less)
  {
    var u := StableSort(s, less) + StableSort(t, less);
    StableSortIsStable(s, less);
    StableSortIsStable(t, less);
    StableSortIsStable(u, less);
    StableSortIsStable(s + t, less);
    forall x ensures Ties(u, x, less) == Ties(s + t, x, less) {
      TiesAppend(StableSort(s, less), StableSort(t, less), x, less);
      TiesAppend(s, t, x, less);
    }
    StableSortUnique(StableSort(u, less), StableSort(s + t, less), less);
  }

  ghost predicate NoneBefore<T(!new)>(s: seq<T>, t: seq<T>, less: Less<T>)
  {
    forall x, y :: x in s && y in t ==> !less(0, x, y)
  }

  ghost predicate AllBefore<T(!new)>(s: seq<T>, t: seq<T>, less: Less<T>)
  {
    forall x, y :: x in s && y in t ==> less(0, x, y)
  }

  /**
   The step SymMerge rests on: two sorted runs `u1 + u2` and `v1 + v2`, cut so that `v1` goes
   strictly before `u2` and nothing of `v2` goes before `u1`, sort as two independent halves.
   */
  lemma SplitSort<T(!new)>(u1: seq<T>, u2: seq<T>, v1: seq<T>, v2: seq<T>, less: Less<T>)
    requires Consistent(less) && Sorted(u1 + u2, less) && Sorted(v1 + v2, less)
    requires AllBefore(v1, u2, less) && NoneBefore(v2, u1, less)
    ensures StableSort(u1 + u2 + (v1 + v2), less) == StableSort(u1 + v1, less) + StableSort(u2 + v2, less)
  {
    var s := u1 + u2 + (v1 + v2);
    var lo, hi := StableSort(u1 + v1, less), StableSort(u2 + v2, less);
    StableSortIsStable(s, less);
    StableSortIsStable(u1 + v1, less);
    StableSortIsStable(u2 + v2, less);
    SplitIsSorted(u1, u2, v1, v2, less);
    forall x ensures Ties(lo + hi, x, less) == Ties(s, x, less) {
      SplitKeepsTies(u1, u2, v1, v2, x, less);
      TiesAppend(lo, hi, x, less);
    }
    StableSortUnique(StableSort(s, less), lo + hi, less);
  }

  lemma SplitIsSorted<T(!new)>(u1: seq<T>, u2: seq<T>, v1: seq<T>, v2: seq<T>, less: Less<T>)
    requires Consistent(less) && Sorted(u1 + u2, less) && Sorted(v1 + v2, less)
    requires AllBefore(v1, u2, less) && NoneBefore(v2, u1, less)
    ensures Sorted(StableSort(u1 + v1, less) + StableSort(u2 + v2, less), less)
  {
    var lo, hi := StableSort(u1 + v1, less), StableSort(u2 + v2, less);
    StableSortIsStable(u1 + v1, less);
    StableSortIsStable(u2 + v2, less);
    forall i, j | 0 <= i < |lo| && 0 <= j < |hi| ensures !less(0, hi[j], lo[i]) {
      assert lo[i] in multiset(lo) && hi[j] in multiset(hi);
      assert lo[i] in u1 || lo[i] in v1;
      assert hi[j] in u2 || hi[j] in v2;
      SplitOrdered(u1, u2, lo[i], hi[j], less);
      SplitOrdered(v1, v2, lo[i], hi[j], less);
    }
  }

  lemma SplitKeepsTies<T(!new)>(u1: seq<T>, u2: seq<T>, v1: seq<T>, v2: seq<T>, x: T, less: Less<T>)
    requires Consistent(less) && AllBefore(v1, u2, less)
    ensures Ties(u1 + v1, x, less) + Ties(u2 + v2, x, less) == Ties(u1 + u2 + (v1 + v2), x, less)
  {
    TiesAppend(u1, v1, x, less);
    TiesAppend(u2, v2, x, less);
    TiesAppend(u1 + u2, v1 + v2, x, less);
    TiesAppend(u1, u2, x, less);
    TiesAppend(v1, v2, x, less);
    var a, b, c, d := Ties(u1, x, less), Ties(u2, x, less), Ties(v1, x, less), Ties(v2, x, less);
    if b != [] && c != [] {
      DistinctTies(c[0], b[0], x, less);
      assert false;
    }
    Regroup(a, b, c, d);
  }

  lemma Regroup<T>(a: seq<T>, b: seq<T>, c: seq<T>, d: seq<T>)
    requires b == [] || c == []
    ensures a + c + (b + d) == a + b + (c + d)
  {
  }

  lemma SplitOrdered<T(!new)>(s: seq<T>, t: seq<T>, x: T, y: T, less: Less<T>)
    requires Sorted(s + t, less)
    ensures x in s && y in t ==> !less(0, y, x)
  {
    if x in s && y in t {
      var i :| 0 <= i < |s| && s[i] == x;
      var j :| 0 <= j < |t| && t[j] == y;
      assert (s + t)[i] == x && (s + t)[|s| + j] == y;
    }
  }

  lemma SortedParts<T(!new)>(u: seq<T>, t: seq<T>, less: Less<T>)
    requires Sorted(u + t, less)
    ensures Sorted(u, less) && Sorted(t, less)
  {
    forall i, j | 0 <= i < j < |u| ensures !less(0, u[j], u[i]) {
      assert (u + t)[i] == u[i] && (u + t)[j] == u[j];
    }
    forall i, j | 0 <= i < j < |t| ensures !less(0, t[j], t[i]) {
      assert (u + t)[|u| + i] == t[i] && (u + t)[|u| + j] == t[j];
    }
  }

  /** What does not go before the last of a sorted run goes before none of it. */
  lemma NotBeforeLast<T(!new)>(s: seq<T>, y: T, less: Less<T>)
    requires Consistent(less) && Sorted(s, less) && (s != [] ==> !less(0, y, s[|s| - 1]))
    ensures Sorted(s + [y], less) && NoneBefore([y], s, less)
  {
  }

  /** What the first of a sorted run does not go before, none of it goes before. */
  lemma FirstNotBefore<T(!new)>(y: T, s: seq<T>, less: Less<T>)
    requires Consistent(less) && Sorted(s, less) && (s != [] ==> !less(0, s[0], y))
    ensures Sorted([y] + s, less) && NoneBefore(s, [y], less)
  {
  }

  /** An element that goes before exactly the tail of a sorted run sorts in between. */
  lemma PlaceLast<T(!new)>(u: seq<T>, t: seq<T>, y: T, less: Less<T>)
    requires Consistent(less) && Sorted(u + t, less)
    requires AllBefore([y], t, less) && (u != [] ==> !less(0, y, u[|u| - 1]))
    ensures StableSort(u + t + [y], less) == u + [y] + t
  {
    SortedParts(u, t, less);
    NotBeforeLast(u, y, less);
    SplitSort(u, t, [y], [], less);
    SortedIsFixed(u + [y], less);
    SortedIsFixed(t, less);
    assert [y] + [] == [y] && t + [] == t;
  }

  /** An element that exactly the head of a sorted run goes before sorts in between. */
  lemma PlaceFirst<T(!new)>(y: T, u: seq<T>, t: seq<T>, less: Less<T>)
    requires Consistent(less) && Sorted(u + t, less)
    requires AllBefore(u, [y], less) && (t != [] ==> !less(0, t[0], y))
    ensures StableSort([y] + (u + t), less) == u + [y] + t
  {
    hide StableSort;
    SortedParts(u, t, less);
    FirstNotBefore(y, t, less);
    SplitSort([], [y], u, t, less);
    SortedIsFixed(u, less);
    SortedIsFixed([y] + t, less);
    assert [] + [y] == [y] && [] + u == u && u + ([y] + t) == u + [y] + t;
  }

  // ---- the algorithm ----

  /** The sequence with its blocks `[a, m)` and `[m, b)` exchanged. */
  function Exchanged<T>(s: seq<T>, a: nat, m: nat, b: nat): (r: seq<T>)
    requires a <= m <= b <= |s|
  {
    seq(|s|, k requires 0 <= k < |s| =>
      if a <= k < a + b - m then s[k + m - a] else if a + b - m <= k < b then s[k + m - b] else s[k])
  }

  lemma ExchangedBlocks<T>(s: seq<T>, a: nat, m: nat, b: nat)
    requires a <= m <= b <= |s|
    ensures Exchanged(s, a, m, b) == s[..a] + s[m..b] + s[a..m] + s[b..]
    ensures multiset(Exchanged(s, a, m, b)) == multiset(s)
  {
    assert s == s[..a] + s[a..m] + s[m..b] + s[b..];
  }

  /** The sequence with the `n` elements at `a` and the `n` elements at `b` exchanged. */
  function RangesSwapped<T>(s: seq<T>, a: nat, b: nat, n: nat): (r: seq<T>)
    requires a + n <= b && b + n <= |s|
  {
    seq(|s|, k requires 0 <= k < |s| =>
      if a <= k < a + n then s[k + b - a] else if b <= k < b + n then s[k + a - b] else s[k])
  }

  lemma RangesSwappedStep<T>(s: seq<T>, a: nat, b: nat, n: nat)
    requires a + n < b && b + n < |s|
    ensures RangesSwapped(s, a, b, n)[a + n] == s[a + n] && RangesSwapped(s, a, b, n)[b + n] == s[b + n]
    ensures RangesSwapped(s, a, b, n)[a + n := s[b + n]][b + n := s[a + n]] == RangesSwapped(s, a, b, n + 1)
  {
  }

  /** Swapping all of the shorter block into its final place leaves the same exchange to finish. */
  lemma RotateStep<T>(s: seq<T>, m: nat, i: nat, j: nat)
    requires 0 < i <= m && 0 < j && m + j <= |s|
    ensures i > j ==>
      Exchanged(RangesSwapped(s, m - i, m, j), m - (i - j), m, m + j) == Exchanged(s, m - i, m, m + j)
    ensures i < j ==>
      Exchanged(RangesSwapped(s, m - i, m + j - i, i), m - i, m, m + (j - i)) == Exchanged(s, m - i, m, m + j)
    ensures i == j ==> RangesSwapped(s, m - i, m, i) == Exchanged(s, m - i, m, m + j)
  {
  }

  /** Exchanges the `n` elements at `a` with the `n` elements at `b`. */
  method SwapRange<T>(data: array<T>, a: nat, b: nat, n: nat)
    requires a + n <= b && b + n <= data.Length
    modifies data
    ensures data[..] == RangesSwapped(old(data[..]), a, b, n)
  {
    ghost var was := data[..];
    for i := 0 to n
      invariant data[..] == RangesSwapped(was, a, b, i)
    {
      RangesSwappedStep(was, a, b, i);
      data[a + i], data[b + i] := data[b + i], data[a + i];
    }
  }

  /** Exchanges the adjacent blocks `[a, m)` and `[m, b)` and touches nothing else. */
  method Rotate<T>(data: array<T>, a: nat, m: nat, b: nat)
    requires a < m < b <= data.Length
    modifies data
    ensures data[..] == Exchanged(old(data[..]), a, m, b)
  {
    hide Exchanged, RangesSwapped;
    var i, j := m - a, b - m;
    ghost var cur, goal := data[..], Exchanged(data[..], a, m, b);
    while i != j
      invariant 0 < i <= m - a && 0 < j <= b - m
      invariant data[..] == cur
      invariant Exchanged(cur, m - i, m, m + j) == goal
      decreases i + j
    {
      RotateStep(cur, m, i, j);
      if i > j {
        SwapRange(data, m - i, m, j);
        cur := RangesSwapped(cur, m - i, m, j);
        i := i - j;
      } else {
        SwapRange(data, m - i, m + j - i, i);
        cur := RangesSwapped(cur, m - i, m + j - i, i);
        j := j - i;
      }
    }
    RotateStep(cur, m, i, j);
    SwapRange(data, m - i, m, i);
  }

  /** Swapping neighbours moves one element further down, or up. */
  lemma MoveStep<T>(s: seq<T>, a: nat, i: nat)
    requires a <= i < |s|
    ensures a > 0 ==>
      Exchanged(s, a, i, i + 1)[a := s[a - 1]][a - 1 := s[i]] == Exchanged(s, a - 1, i, i + 1)
    ensures a > 0 ==> Exchanged(s, a, i, i + 1)[a] == s[i] && Exchanged(s, a, i, i + 1)[a - 1] == s[a - 1]
    ensures i + 1 < |s| ==>
      Exchanged(s, a, a + 1, i + 1)[i := s[i + 1]][i + 1 := s[a]] == Exchanged(s, a, a + 1, i + 2)
    ensures Exchanged(s, a, a + 1, i + 1)[i] == s[a]
    ensures i + 1 < |s| ==> Exchanged(s, a, a + 1, i + 1)[i + 1] == s[i + 1]
    ensures Exchanged(s, i, i, i + 1) == s && Exchanged(s, a, a + 1, a + 1) == s
  {
  }

  /** Whether everything outside `[a, b)` stands as it stood. */
  ghost predicate Outside<T>(now: seq<T>, was: seq<T>, a: nat, b: nat)
    requires a <= b <= |was|
  {
    |now| == |was| && now[..a] == was[..a] && now[b..] == was[b..]
  }

  lemma Steady<T(!new)>(less: Less<T>, n: nat, x: T, y: T)
    ensures Consistent(less) ==> less(n, x, y) == less(0, x, y)
  {
  }

  lemma SortShort<T(!new)>(s: seq<T>, a: nat, b: nat, less: Less<T>)
    requires a <= b <= |s|
    ensures a < b ==> StableSort(s[a..a + 1], less) == s[a..a + 1]
    ensures a == b ==> StableSort(s[a..b], less) == s[a..b]
  {
    if a < b {
      assert s[a..a + 1] == [s[a]] && [s[a]][..0] == [];
    }
  }

  /** One run sorted out of two sorted ones by exchanging blocks. */
  lemma InsertionStep<T(!new)>(was: seq<T>, cur: seq<T>, a: nat, i: nat, j: nat, less: Less<T>)
    requires a < i < |was| && a <= j <= i && |cur| == |was| && cur[i..] == was[i..]
    requires Consistent(less) && cur[a..i] == StableSort(was[a..i], less)
    requires forall k :: j <= k < i ==> less(0, cur[i], cur[k])
    requires j > a ==> !less(0, cur[i], cur[j - 1])
    ensures Exchanged(cur, j, i, i + 1)[a..i + 1] == StableSort(was[a..i + 1], less)
  {
    hide StableSort, Exchanged, Consistent, Sorted, Ties;
    var u, t, y := cur[a..j], cur[j..i], cur[i];
    StableSortIsStable(was[a..i], less);
    assert u + t == cur[a..i];
    PlaceLast(u, t, y, less);
    SortPieces(was[a..i], [y], less);
    SortedIsFixed([y], less);
    assert was[a..i + 1] == was[a..i] + [y] by { assert was[i..][0] == cur[i..][0]; }
    MovedPart(cur, a, j, i);
  }

  lemma MovedPart<T>(s: seq<T>, a: nat, j: nat, i: nat)
    requires a <= j <= i < |s|
    ensures Exchanged(s, j, i, i + 1)[a..i + 1] == s[a..j] + [s[i]] + s[j..i]
    ensures Outside(Exchanged(s, j, i, i + 1), s, a, i + 1)
    ensures multiset(Exchanged(s, j, i, i + 1)) == multiset(s)
  {
    ExchangedBlocks(s, j, i, i + 1);
  }

  /** Where insertion sort stands: `[a, i)` is sorted, the rest of the sequence is untouched. */
  ghost predicate SortedUpTo<T(!new)>(cur: seq<T>, was: seq<T>, a: nat, i: nat, b: nat, less: Less<T>)
    requires a <= b <= |was|
  {
    && Outside(cur, was, a, b)
    && multiset(cur) == multiset(was)
    && (if a == b then cur == was
        else a < i <= b && cur[i..] == was[i..] && (Consistent(less) ==> cur[a..i] == StableSort(was[a..i], less)))
  }

  lemma SortedUpToStart<T(!new)>(was: seq<T>, a: nat, b: nat, less: Less<T>)
    requires a <= b <= |was|
    ensures SortedUpTo(was, was, a, a + 1, b, less)
  {
    if a < b {
      SortShort(was, a, b, less);
    }
  }

  lemma SortedUpToStep<T(!new)>(cur: seq<T>, was: seq<T>, a: nat, i: nat, j: nat, b: nat, less: Less<T>)
    requires a < i < b <= |was| && a <= j <= i && SortedUpTo(cur, was, a, i, b, less)
    requires Consistent(less) ==> forall k :: j <= k < i ==> less(0, cur[i], cur[k])
    requires Consistent(less) && j > a ==> !less(0, cur[i], cur[j - 1])
    ensures SortedUpTo(Exchanged(cur, j, i, i + 1), was, a, i + 1, b, less)
  {
    hide StableSort, Consistent;
    MovedPart(cur, a, j, i);
    if Consistent(less) {
      InsertionStep(was, cur, a, i, j, less);
    }
  }

  lemma SortedUpToEnd<T(!new)>(cur: seq<T>, was: seq<T>, a: nat, i: nat, b: nat, less: Less<T>)
    requires a <= b <= |was| && SortedUpTo(cur, was, a, i, b, less) && i >= b
    ensures Outside(cur, was, a, b) && multiset(cur) == multiset(was)
    ensures Consistent(less) ==> cur[a..b] == StableSort(was[a..b], less)
  {
    SortShort(was, a, b, less);
  }

  method InsertionSort<T(!new)>(data: array<T>, a: nat, b: nat, less: Less<T>, calls: nat) returns (calls': nat)
    requires a <= b <= data.Length
    modifies data
    ensures Outside(data[..], old(data[..]), a, b)
    ensures multiset(data[..]) == old(multiset(data[..]))
    ensures Consistent(less) ==> data[a..b] == StableSort(old(data[a..b]), less)
  {
    hide *;
    calls' := calls;
    ghost var was, cur := data[..], data[..];
    SortedUpToStart(was, a, b, less);
    var i := a + 1;
    while i < b
      invariant a < i && data[..] == cur && |cur| == |was|
      invariant SortedUpTo(cur, was, a, i, b, less)
    {
      var j := i;
      MoveStep(cur, i, i);
      while j > a && less(calls', data[j], data[j - 1])
        invariant a <= j <= i
        invariant data[..] == Exchanged(cur, j, i, i + 1)
        invariant Consistent(less) ==> forall k :: j <= k < i ==> less(0, cur[i], cur[k])
      {
        MoveStep(cur, j, i);
        Steady(less, calls', data[j], data[j - 1]);
        calls' := calls' + 1;
        data[j], data[j - 1] := data[j - 1], data[j];
        j := j - 1;
      }
      if j > a {
        MoveStep(cur, j, i);
        Steady(less, calls', data[j], data[j - 1]);
      }
      SortedUpToStep(cur, was, a, i, j, b, less);
      cur := data[..];
      calls' := calls' + 1;
      i := i + 1;
    }
    SortedUpToEnd(cur, was, a, i, b, less);
    assert was[a..b] == old(data[a..b]) && cur[a..b] == data[a..b];
  }

  /** Two neighbouring sorted runs under one strict weak order. */
  ghost predicate Runs<T(!new)>(s: seq<T>, a: nat, m: nat, b: nat, less: Less<T>)
    requires a <= m <= b <= |s|
  {
    Consistent(less) && Sorted(s[a..m], less) && Sorted(s[m..b], less)
  }

  lemma LastBefore<T(!new)>(s: seq<T>, t: seq<T>, less: Less<T>)
    requires Consistent(less) && Sorted(s, less) && Sorted(t, less)
    ensures s != [] && t != [] && less(0, s[|s| - 1], t[0]) ==> AllBefore(s, t, less)
    ensures s == [] || t == [] ==> AllBefore(s, t, less)
  {
    if s != [] && t != [] && less(0, s[|s| - 1], t[0]) {
      var last, first := s[|s| - 1], t[0];
      assert forall y :: y in t ==> !less(0, y, first);
      assert forall x :: x in s ==> !less(0, last, x);
      assert forall y :: y in t ==> less(0, last, y) || less(0, y, first);
    }
  }

  lemma FirstNotBeforeLast<T(!new)>(t: seq<T>, s: seq<T>, less: Less<T>)
    requires Consistent(less) && Sorted(s, less) && Sorted(t, less)
    ensures s != [] && t != [] && !less(0, t[0], s[|s| - 1]) ==> NoneBefore(t, s, less)
    ensures s == [] || t == [] ==> NoneBefore(t, s, less)
  {
    if s != [] && t != [] && !less(0, t[0], s[|s| - 1]) {
      var last, first := s[|s| - 1], t[0];
      assert forall x :: x in t ==> !less(0, x, first);
      assert forall y :: y in s ==> !less(0, last, y);
      assert forall y :: y in s && less(0, first, y) ==> less(0, first, last) || less(0, last, y);
    }
  }

  /** Merging a run of one element on the left. */
  lemma MergeFirst<T(!new)>(s: seq<T>, a: nat, i: nat, b: nat, less: Less<T>)
    requires a < i <= b <= |s| && Runs(s, a, a + 1, b, less)
    requires i > a + 1 ==> less(0, s[i - 1], s[a])
    requires i < b ==> !less(0, s[i], s[a])
    ensures Exchanged(s, a, a + 1, i)[a..b] == StableSort(s[a..b], less)
  {
    hide StableSort, Exchanged, Consistent, Sorted, AllBefore;
    HeadMoved(s, a, i, b);
    var u, t, y := s[a + 1..i], s[i..b], s[a];
    SortedParts(u, t, less);
    LastBefore(u, [y], less);
    PlaceFirst(y, u, t, less);
  }

  lemma HeadMoved<T>(s: seq<T>, a: nat, i: nat, b: nat)
    requires a < i <= b <= |s|
    ensures s[a + 1..b] == s[a + 1..i] + s[i..b] && s[a..a + 1] == [s[a]]
    ensures s[a..b] == [s[a]] + (s[a + 1..i] + s[i..b])
    ensures Exchanged(s, a, a + 1, i)[a..b] == s[a + 1..i] + [s[a]] + s[i..b]
    ensures Outside(Exchanged(s, a, a + 1, i), s, a, b)
    ensures multiset(Exchanged(s, a, a + 1, i)) == multiset(s)
  {
    ExchangedBlocks(s, a, a + 1, i);
  }

  /** Merging a run of one element on the right. */
  lemma MergeLast<T(!new)>(s: seq<T>, a: nat, i: nat, m: nat, less: Less<T>)
    requires a <= i <= m < |s| && Runs(s, a, m, m + 1, less)
    requires i < m ==> less(0, s[m], s[i])
    requires i > a ==> !less(0, s[m], s[i - 1])
    ensures Exchanged(s, i, m, m + 1)[a..m + 1] == StableSort(s[a..m + 1], less)
  {
    hide StableSort, Exchanged, Consistent, Sorted, AllBefore;
    var u, t, y := s[a..i], s[i..m], s[m];
    Split(s, a, i, m);
    Split(s, a, m, m + 1);
    assert s[m..m + 1] == [y];
    SortedParts(u, t, less);
    LastBefore([y], t, less);
    PlaceLast(u, t, y, less);
    MovedPart(s, a, i, m);
  }

  lemma CutRuns<T(!new)>(u1: seq<T>, u2: seq<T>, v1: seq<T>, v2: seq<T>, less: Less<T>)
    requires Consistent(less) && Sorted(u1 + u2, less) && Sorted(v1 + v2, less)
    requires u2 != [] && v1 != [] ==> less(0, v1[|v1| - 1], u2[0])
    requires u1 != [] && v2 != [] ==> !less(0, v2[0], u1[|u1| - 1])
    ensures Sorted(u1, less) && Sorted(u2, less) && Sorted(v1, less) && Sorted(v2, less)
    ensures StableSort(u1 + u2 + (v1 + v2), less) == StableSort(u1 + v1, less) + StableSort(u2 + v2, less)
  {
    SortedParts(u1, u2, less);
    SortedParts(v1, v2, less);
    LastBefore(v1, u2, less);
    FirstNotBeforeLast(v2, u1, less);
    SplitSort(u1, u2, v1, v2, less);
  }

  /** The symmetric cut: after exchanging the inner blocks, the halves merge on their own. */
  lemma MergeSplit<T(!new)>(s: seq<T>, r: seq<T>, a: nat, start: nat, m: nat, end: nat, b: nat, less: Less<T>)
    requires a <= start <= m <= end <= b <= |s| && Runs(s, a, m, b, less)
    requires start < m && m < end ==> less(0, s[end - 1], s[start])
    requires a < start && end < b ==> !less(0, s[end], s[start - 1])
    requires r == Exchanged(s, start, m, end)
    ensures Runs(r, a, start, start + end - m, less) && Runs(r, start + end - m, end, b, less)
    ensures StableSort(s[a..b], less)
         == StableSort(r[a..start + end - m], less) + StableSort(r[start + end - m..b], less)
  {
    hide StableSort, Exchanged, Consistent, Sorted;
    SplitParts(s, r, a, start, m, end, b);
    CutEnds(s, a, start, m, end, b, less);
    HalvesSort(s[a..b], r[a..start + end - m], r[start + end - m..b], s[a..start], s[start..m], s[m..end], s[end..b], less);
  }

  /** What is known at the cut, about the four parts. */
  lemma CutEnds<T(!new)>(s: seq<T>, a: nat, start: nat, m: nat, end: nat, b: nat, less: Less<T>)
    requires a <= start <= m <= end <= b <= |s|
    requires start < m && m < end ==> less(0, s[end - 1], s[start])
    requires a < start && end < b ==> !less(0, s[end], s[start - 1])
    ensures s[start..m] != [] && s[m..end] != [] ==> less(0, s[m..end][|s[m..end]| - 1], s[start..m][0])
    ensures s[a..start] != [] && s[end..b] != [] ==> !less(0, s[end..b][0], s[a..start][|s[a..start]| - 1])
  {
    SliceEnds(s, a, start);
    SliceEnds(s, start, m);
    SliceEnds(s, m, end);
    SliceEnds(s, end, b);
  }

  lemma HalvesSort<T(!new)>(whole: seq<T>, left: seq<T>, right: seq<T>, u1: seq<T>, u2: seq<T>, v1: seq<T>, v2: seq<T>,
                            less: Less<T>)
    requires whole == u1 + u2 + (v1 + v2) && left == u1 + v1 && right == u2 + v2
    requires Consistent(less) && Sorted(u1 + u2, less) && Sorted(v1 + v2, less)
    requires u2 != [] && v1 != [] ==> less(0, v1[|v1| - 1], u2[0])
    requires u1 != [] && v2 != [] ==> !less(0, v2[0], u1[|u1| - 1])
    ensures Sorted(u1, less) && Sorted(u2, less) && Sorted(v1, less) && Sorted(v2, less)
    ensures StableSort(whole, less) == StableSort(left, less) + StableSort(right, less)
  {
    hide StableSort, Consistent, Sorted;
    CutRuns(u1, u2, v1, v2, less);
  }

  lemma SliceEnds<T>(s: seq<T>, i: nat, j: nat)
    requires i <= j <= |s|
    ensures i < j ==> s[i..j] != [] && s[i..j][0] == s[i] && s[i..j][j - i - 1] == s[j - 1]
    ensures |s[i..j]| == j - i
  {
  }

  lemma SplitParts<T>(s: seq<T>, r: seq<T>, a: nat, start: nat, m: nat, end: nat, b: nat)
    requires a <= start <= m <= end <= b <= |s| && r == Exchanged(s, start, m, end)
    ensures s[a..m] == s[a..start] + s[start..m] && s[m..b] == s[m..end] + s[end..b]
    ensures s[a..b] == s[a..start] + s[start..m] + (s[m..end] + s[end..b])
    ensures var mid := start + end - m;
      && r[a..start] == s[a..start] && r[start..mid] == s[m..end] && r[mid..end] == s[start..m]
      && r[end..b] == s[end..b] && r[a..mid] == s[a..start] + s[m..end] && r[mid..b] == s[start..m] + s[end..b]
      && |r| == |s|
  {
    hide Exchanged;
    ExchangedBlocks(s, start, m, end);
    var mid := start + end - m;
    Split(s, a, start, m);
    Split(s, m, end, b);
    Split(s, a, m, b);
    Split(r, a, start, mid);
    Split(r, mid, end, b);
  }

  lemma ExchangedOutside<T>(s: seq<T>, r: seq<T>, a: nat, start: nat, m: nat, end: nat, b: nat)
    requires a <= start <= m <= end <= b <= |s| && r == Exchanged(s, start, m, end)
    ensures Outside(r, s, a, b) && multiset(r) == multiset(s)
  {
    ExchangedBlocks(s, start, m, end);
  }

  lemma Split<T>(s: seq<T>, i: nat, j: nat, k: nat)
    requires i <= j <= k <= |s|
    ensures s[i..k] == s[i..j] + s[j..k]
  {
  }

  lemma MergedFirst<T(!new)>(s: seq<T>, r: seq<T>, a: nat, i: nat, b: nat, less: Less<T>)
    requires a < i <= b <= |s| && r == Exchanged(s, a, a + 1, i)
    requires Consistent(less) && i > a + 1 ==> less(0, s[i - 1], s[a])
    requires Consistent(less) && i < b ==> !less(0, s[i], s[a])
    ensures MergedFrom(r, s, a, a + 1, b, less)
  {
    hide StableSort, Exchanged, Consistent, Sorted;
    HeadMoved(s, a, i, b);
    if Runs(s, a, a + 1, b, less) {
      MergeFirst(s, a, i, b, less);
    }
  }

  lemma MergedLast<T(!new)>(s: seq<T>, r: seq<T>, a: nat, i: nat, m: nat, less: Less<T>)
    requires a <= i <= m < |s| && r == Exchanged(s, i, m, m + 1)
    requires Consistent(less) && i < m ==> less(0, s[m], s[i])
    requires Consistent(less) && i > a ==> !less(0, s[m], s[i - 1])
    ensures MergedFrom(r, s, a, m, m + 1, less)
  {
    hide StableSort, Exchanged, Consistent, Sorted;
    MovedPart(s, a, i, m);
    if Runs(s, a, m, m + 1, less) {
      MergeLast(s, a, i, m, less);
    }
  }

  /** Exchanging with an empty block moves nothing. */
  lemma Unmoved<T>(s: seq<T>, start: nat, m: nat, end: nat)
    requires start <= m <= end <= |s|
    ensures start == m || m == end ==> Exchanged(s, start, m, end) == s
  {
  }

  /** The two runs merged: nothing outside moves, nothing is lost, sorted runs become one sorted run. */
  ghost predicate MergedFrom<T(!new)>(now: seq<T>, was: seq<T>, a: nat, m: nat, b: nat, less: Less<T>)
    requires a <= m <= b <= |was|
  {
    && Outside(now, was, a, b)
    && multiset(now) == multiset(was)
    && (Runs(was, a, m, b, less) ==> now[a..b] == StableSort(was[a..b], less))
  }

  /** What merging the runs `[lo, cut)` and `[cut, hi)`, when both are there, makes of `was`. */
  ghost predicate HalfMerged<T(!new)>(now: seq<T>, was: seq<T>, lo: nat, cut: nat, hi: nat, less: Less<T>)
    requires lo <= cut <= hi <= |was|
  {
    if lo < cut < hi then MergedFrom(now, was, lo, cut, hi, less) else now == was
  }

  lemma HalfMergedSorts<T(!new)>(now: seq<T>, was: seq<T>, lo: nat, cut: nat, hi: nat, less: Less<T>)
    requires lo <= cut <= hi <= |was| && HalfMerged(now, was, lo, cut, hi, less)
    ensures Outside(now, was, lo, hi) && multiset(now) == multiset(was)
    ensures Runs(was, lo, cut, hi, less) ==> now[lo..hi] == StableSort(was[lo..hi], less)
  {
    if Runs(was, lo, cut, hi, less) && !(lo < cut < hi) {
      assert was[lo..hi] == (if lo == cut then was[cut..hi] else was[lo..cut]);
      SortedIsFixed(was[lo..hi], less);
    }
  }

  lemma RunsCarry<T(!new)>(now: seq<T>, was: seq<T>, lo: nat, mid: nat, end: nat, b: nat, less: Less<T>)
    requires lo <= mid <= end <= b <= |was| && Outside(now, was, lo, mid) && Runs(was, mid, end, b, less)
    ensures Runs(now, mid, end, b, less) && now[mid..b] == was[mid..b]
  {
    var t := was[mid..];
    assert was[mid..end] == t[..end - mid] && was[end..b] == t[end - mid..b - mid] && was[mid..b] == t[..b - mid];
    assert now[mid..end] == t[..end - mid] && now[end..b] == t[end - mid..b - mid] && now[mid..b] == t[..b - mid];
  }

  lemma OutsideHalves<T>(s: seq<T>, t: seq<T>, t': seq<T>, r: seq<T>, a: nat, mid: nat, b: nat)
    requires a <= mid <= b <= |s|
    requires Outside(t, s, a, b) && Outside(t', t, a, mid) && Outside(r, t', mid, b)
    ensures Outside(r, s, a, b) && r[a..b] == t'[a..mid] + r[mid..b]
  {
    assert r[..a] == r[..mid][..a] && t'[..a] == t'[..mid][..a];
    assert r[a..b] == r[..mid][a..] + r[mid..b] && t'[..mid][a..] == t'[a..mid];
    assert t'[b..] == t'[mid..][b - mid..] && t[b..] == t[mid..][b - mid..];
  }

  /** What the merges of the two halves, `t` to `t'` and `t'` to `r`, make of `s`. */
  lemma Merged<T(!new)>(s: seq<T>, t: seq<T>, t': seq<T>, r: seq<T>,
                        a: nat, start: nat, m: nat, end: nat, b: nat, less: Less<T>)
    requires a <= start <= m <= end <= b <= |s| && t == Exchanged(s, start, m, end) && |t| == |t'| == |s|
    requires HalfMerged(t', t, a, start, start + end - m, less)
    requires HalfMerged(r, t', start + end - m, end, b, less)
    requires Consistent(less) && start < m && m < end ==> less(0, s[end - 1], s[start])
    requires Consistent(less) && a < start && end < b ==> !less(0, s[end], s[start - 1])
    ensures MergedFrom(r, s, a, m, b, less)
  {
    hide StableSort, Exchanged, Consistent, Sorted, HalfMerged, Outside;
    var mid := start + end - m;
    SplitParts(s, t, a, start, m, end, b);
    ExchangedOutside(s, t, a, start, m, end, b);
    HalfMergedSorts(t', t, a, start, mid, less);
    HalfMergedSorts(r, t', mid, end, b, less);
    OutsideHalves(s, t, t', r, a, mid, b);
    if Runs(s, a, m, b, less) {
      MergeSplit(s, t, a, start, m, end, b, less);
      RunsCarry(t', t, a, mid, end, b, less);
    }
  }

  lemma HalfMergedIntro<T(!new)>(now: seq<T>, was: seq<T>, lo: nat, cut: nat, hi: nat, less: Less<T>)
    requires lo <= cut <= hi <= |was|
    requires if lo < cut < hi then MergedFrom(now, was, lo, cut, hi, less) else now == was
    ensures HalfMerged(now, was, lo, cut, hi, less)
  {
  }

  /** SymMerge when the left run is one element: find its place by halving, then move it up. */
  method MergeOneLeft<T(!new)>(data: array<T>, a: nat, m: nat, b: nat, less: Less<T>, calls: nat) returns (calls': nat)
    requires a < m < b <= data.Length && m - a == 1
    modifies data
    ensures MergedFrom(data[..], old(data[..]), a, m, b, less)
  {
    hide *;
    calls' := calls;
    ghost var s := data[..];
    var i, j := m, b;
    while i < j
      invariant m <= i <= j <= b && data[..] == s
      invariant Consistent(less) && i > m ==> less(0, s[i - 1], s[a])
      invariant Consistent(less) && j < b ==> !less(0, s[j], s[a])
    {
      var h := (i + j) / 2;
      Steady(less, calls', s[h], s[a]);
      if less(calls', data[h], data[a]) {
        i := h + 1;
      } else {
        j := h;
      }
      calls' := calls' + 1;
    }
    var k := a;
    MoveStep(s, a, a);
    while k + 1 < i
      invariant a <= k < i
      invariant data[..] == Exchanged(s, a, a + 1, k + 1)
    {
      MoveStep(s, a, k);
      data[k], data[k + 1] := data[k + 1], data[k];
      k := k + 1;
    }
    MergedFirst(s, data[..], a, i, b, less);
  }

  /** SymMerge when the right run is one element: find its place by halving, then move it down. */
  method MergeOneRight<T(!new)>(data: array<T>, a: nat, m: nat, b: nat, less: Less<T>, calls: nat) returns (calls': nat)
    requires a < m < b <= data.Length && b - m == 1
    modifies data
    ensures MergedFrom(data[..], old(data[..]), a, m, b, less)
  {
    hide *;
    calls' := calls;
    ghost var s := data[..];
    var i, j := a, m;
    while i < j
      invariant a <= i <= j <= m && data[..] == s
      invariant Consistent(less) && i > a ==> !less(0, s[m], s[i - 1])
      invariant Consistent(less) && j < m ==> less(0, s[m], s[j])
    {
      var h := (i + j) / 2;
      Steady(less, calls', s[m], s[h]);
      if !less(calls', data[m], data[h]) {
        i := h + 1;
      } else {
        j := h;
      }
      calls' := calls' + 1;
    }
    var k := m;
    MoveStep(s, m, m);
    while k > i
      invariant i <= k <= m
      invariant data[..] == Exchanged(s, k, m, m + 1)
    {
      MoveStep(s, k, m);
      data[k], data[k - 1] := data[k - 1], data[k];
      k := k - 1;
    }
    MergedLast(s, data[..], a, i, m, less);
  }

  method SymMerge<T(!new)>(data: array<T>, a: nat, m: nat, b: nat, less: Less<T>, calls: nat) returns (calls': nat)
    requires a < m < b <= data.Length
    modifies data
    ensures MergedFrom(data[..], old(data[..]), a, m, b, less)
    decreases b - a
  {
    hide *;
    if m - a == 1 {
      calls' := MergeOneLeft(data, a, m, b, less, calls);
      return;
    }
    if b - m == 1 {
      calls' := MergeOneRight(data, a, m, b, less, calls);
      return;
    }
    calls' := calls;
    ghost var s := data[..];
    var mid := (a + b) / 2;
    var n := mid + m;
    var start, r := if m > mid then n - b else a, if m > mid then mid else m;
    var p := n - 1;
    ghost var first, last := start, r;
    while start < r
      invariant first <= start <= r <= last && data[..] == s
      invariant Consistent(less) && start > first ==> !less(0, s[p - (start - 1)], s[start - 1])
      invariant Consistent(less) && r < last ==> less(0, s[p - r], s[r])
    {
      var c := (start + r) / 2;
      Steady(less, calls', s[p - c], s[c]);
      if !less(calls', data[p - c], data[c]) {
        start := c + 1;
      } else {
        r := c;
      }
      calls' := calls' + 1;
    }
    var end := n - start;
    assert a <= start <= m <= end <= b && start <= mid <= end;
    if start < m && m < end {
      Rotate(data, start, m, end);
    }
    Unmoved(s, start, m, end);
    ghost var t := data[..];
    if a < start && start < mid {
      calls' := SymMerge(data, a, start, mid, less, calls');
    }
    ghost var t' := data[..];
    HalfMergedIntro(t', t, a, start, mid, less);
    if mid < end && end < b {
      calls' := SymMerge(data, mid, end, b, less, calls');
    }
    HalfMergedIntro(data[..], t', mid, end, b, less);
    Merged(s, t, t', data[..], a, start, m, end, b, less);
  }

  /** `s` is `o` with every block of `c` elements (the last one perhaps shorter) stably sorted. */
  ghost predicate Chunked<T(!new)>(s: seq<T>, o: seq<T>, c: nat, less: Less<T>)
    requires c > 0
    decreases |s|
  {
    && |s| == |o|
    && (if |s| <= c then s == StableSort(o, less)
        else s[..c] == StableSort(o[..c], less) && Chunked(s[c..], o[c..], c, less))
  }

  lemma ChunkCons<T(!new)>(s: seq<T>, o: seq<T>, t: seq<T>, p: seq<T>, c: nat, less: Less<T>)
    requires c > 0 && |s| == |o| == c && s == StableSort(o, less) && Chunked(t, p, c, less)
    ensures Chunked(s + t, o + p, c, less)
  {
    hide StableSort;
    if t == [] {
      assert s + t == s && o + p == o;
    } else {
      assert (s + t)[..c] == s && (o + p)[..c] == o && (s + t)[c..] == t && (o + p)[c..] == p;
    }
  }

  lemma ChunkedLength<T(!new)>(s: seq<T>, o: seq<T>, c: nat, less: Less<T>)
    requires c > 0 && Chunked(s, o, c, less)
    ensures |s| == |o|
  {
  }

  lemma LastChunk<T(!new)>(s: seq<T>, o: seq<T>, c: nat, less: Less<T>)
    requires c > 0 && |s| == |o| <= c && s == StableSort(o, less)
    ensures Chunked(s, o, c, less)
  {
  }

  lemma ChunkHead<T(!new)>(s: seq<T>, o: seq<T>, c: nat, less: Less<T>)
    requires c > 0 && |s| >= c && Chunked(s, o, c, less)
    ensures |s| == |o| && s[..c] == StableSort(o[..c], less) && Chunked(s[c..], o[c..], c, less)
  {
    if |s| == c {
      assert s[..c] == s && o[..c] == o && s[c..] == o[c..] == [];
    }
  }

  lemma {:induction false} ChunkAppend<T(!new)>(s: seq<T>, o: seq<T>, t: seq<T>, p: seq<T>, c: nat, k: nat, less: Less<T>)
    requires c > 0 && |s| == k * c && Chunked(s, o, c, less)
    requires |t| == |p| <= c && t == StableSort(p, less)
    ensures Chunked(s + t, o + p, c, less)
    decreases k
  {
    hide *;
    if k == 0 {
      assert s == [] && o == [] by {
        ChunkedLength(s, o, c, less);
      }
      assert s + t == t && o + p == p;
      LastChunk(t, p, c, less);
    } else {
      assert |s| == c + (k - 1) * c && (k - 1) * c >= 0;
      ChunkHead(s, o, c, less);
      ChunkAppend(s[c..], o[c..], t, p, c, k - 1, less);
      ChunkCons(s[..c], o[..c], s[c..] + t, o[c..] + p, c, less);
      assert s[..c] + (s[c..] + t) == s + t && o[..c] + (o[c..] + p) == o + p;
    }
  }

  /** The first `a` elements, a whole number `k` of blocks, are done and nothing is lost. */
  ghost predicate Blocks<T(!new)>(cur: seq<T>, was: seq<T>, a: nat, c: nat, k: nat, less: Less<T>)
    requires c > 0
  {
    && |cur| == |was| && a == k * c && a <= |was|
    && multiset(cur) == multiset(was)
    && (Consistent(less) ==> Chunked(cur[..a], was[..a], c, less))
  }

  /** The elements from `a` on still stand in sorted blocks. */
  ghost predicate Ahead<T(!new)>(cur: seq<T>, was: seq<T>, a: nat, c: nat, less: Less<T>)
    requires c > 0
  {
    |cur| == |was| && a <= |was| && (Consistent(less) ==> Chunked(cur[a..], was[a..], c, less))
  }

  lemma BlocksStart<T(!new)>(cur: seq<T>, was: seq<T>, c: nat, less: Less<T>)
    requires c > 0 && |cur| == |was| && multiset(cur) == multiset(was)
    ensures Blocks(cur, was, 0, c, 0, less)
    ensures Blocks(cur, was, 0, c, 0, less) && (Consistent(less) ==> Chunked(cur, was, c, less)) ==> Ahead(cur, was, 0, c, less)
  {
    assert cur[..0] == [] && was[..0] == [] && cur[0..] == cur && was[0..] == was;
  }

  lemma BlocksStep<T(!new)>(now: seq<T>, cur: seq<T>, was: seq<T>, a: nat, b: nat, c: nat, k: nat, less: Less<T>)
    requires c > 0 && Blocks(cur, was, a, c, k, less)
    requires a <= b <= |was| && (b == a + c || (b == |was| && b - a <= c))
    requires Outside(now, cur, a, b) && multiset(now) == multiset(cur)
    requires Consistent(less) ==> now[a..b] == StableSort(was[a..b], less)
    ensures now[b..] == cur[b..] && multiset(now) == multiset(was)
    ensures b == a + c ==> Blocks(now, was, b, c, k + 1, less)
    ensures b == |was| && Consistent(less) ==> Chunked(now, was, c, less)
  {
    hide StableSort, Consistent;
    if Consistent(less) {
      ChunkAppend(cur[..a], was[..a], now[a..b], was[a..b], c, k, less);
      assert now[..b] == cur[..a] + now[a..b] && was[..b] == was[..a] + was[a..b];
      assert b == |was| ==> now[..b] == now && was[..b] == was;
    }
  }

  lemma NothingChunked<T(!new)>(c: nat, less: Less<T>)
    requires c > 0
    ensures Chunked([], [], c, less)
  {
  }

  lemma InRest<T>(s: seq<T>, c: nat, q: nat)
    requires c + q <= |s|
    ensures s[c..][..q] == s[c..c + q] && s[c..][q..] == s[c + q..]
  {
  }

  lemma TwoChunks<T(!new)>(s: seq<T>, o: seq<T>, c: nat, q: nat, less: Less<T>)
    requires c > 0 && 0 < q <= c && Chunked(s, o, c, less) && c + q <= |s| && (q == c || |s| == c + q)
    ensures |s| == |o| && s[..c] == StableSort(o[..c], less) && s[c..c + q] == StableSort(o[c..c + q], less)
    ensures Chunked(s[c + q..], o[c + q..], c, less)
  {
    hide StableSort;
    var t, p := s[c..], o[c..];
    InRest(s, c, q);
    InRest(o, c, q);
    NothingChunked(c, less);
    if |t| <= c {
      assert t[..q] == t && p[..q] == p;
    }
  }

  /** The next two blocks, or the block and a part that are left, are two sorted runs. */
  lemma NextRuns<T(!new)>(cur: seq<T>, was: seq<T>, a: nat, b: nat, c: nat, less: Less<T>)
    requires c > 0 && Ahead(cur, was, a, c, less)
    requires a + c < b <= a + 2 * c && b <= |was| && (b == a + 2 * c || b == |was|)
    ensures Consistent(less) ==> Runs(cur, a, a + c, b, less)
    ensures Consistent(less) ==> StableSort(cur[a..b], less) == StableSort(was[a..b], less)
    ensures Consistent(less) ==> Chunked(cur[b..], was[b..], c, less)
  {
    hide StableSort, Sorted, Chunked;
    if Consistent(less) {
      var q := b - a - c;
      TwoChunks(cur[a..], was[a..], c, q, less);
      ShiftedSlices(cur, a, c, q);
      ShiftedSlices(was, a, c, q);
      StableSortIsStable(was[a..a + c], less);
      StableSortIsStable(was[a + c..b], less);
      SortPieces(was[a..a + c], was[a + c..b], less);
    }
  }

  lemma ShiftedSlices<T>(s: seq<T>, a: nat, c: nat, q: nat)
    requires a + c + q <= |s|
    ensures s[a..][..c] == s[a..a + c] && s[a..][c..c + q] == s[a + c..a + c + q] && s[a..][c + q..] == s[a + c + q..]
    ensures s[a..a + c + q] == s[a..a + c] + s[a + c..a + c + q]
  {
  }

  /** What is left when at most one block remains is sorted already. */
  lemma LastBlock<T(!new)>(cur: seq<T>, was: seq<T>, a: nat, c: nat, less: Less<T>)
    requires c > 0 && Ahead(cur, was, a, c, less) && |was| <= a + c
    ensures Consistent(less) ==> cur[a..|was|] == StableSort(was[a..|was|], less)
    ensures Outside(cur, cur, a, |was|)
  {
    assert cur[a..|was|] == cur[a..] && was[a..|was|] == was[a..];
  }

  lemma AheadKept<T(!new)>(now: seq<T>, cur: seq<T>, was: seq<T>, b: nat, c: nat, less: Less<T>)
    requires c > 0 && b <= |was| == |cur| == |now| && now[b..] == cur[b..]
    requires Consistent(less) ==> Chunked(cur[b..], was[b..], c, less)
    ensures Ahead(now, was, b, c, less)
  {
  }

  lemma MergedRuns<T(!new)>(now: seq<T>, cur: seq<T>, was: seq<T>, a: nat, m: nat, b: nat, less: Less<T>)
    requires a <= m <= b <= |was| == |cur| && MergedFrom(now, cur, a, m, b, less)
    requires Consistent(less) ==> Runs(cur, a, m, b, less) && StableSort(cur[a..b], less) == StableSort(was[a..b], less)
    ensures Outside(now, cur, a, b) && multiset(now) == multiset(cur) && |now| == |cur|
    ensures Consistent(less) ==> now[a..b] == StableSort(was[a..b], less)
  {
  }

  lemma WholeChunk<T(!new)>(s: seq<T>, o: seq<T>, c: nat, less: Less<T>)
    requires c > 0 && Chunked(s, o, c, less) && |s| <= c
    ensures s == StableSort(o, less)
  {
  }

  /** Insertion sort over blocks. */
  method SortBlocks<T(!new)>(data: array<T>, block: nat, less: Less<T>) returns (calls: nat)
    requires block > 0
    modifies data
    ensures multiset(data[..]) == old(multiset(data[..]))
    ensures Consistent(less) ==> Chunked(data[..], old(data[..]), block, less)
  {
    hide *;
    calls := 0;
    var n := data.Length;
    ghost var was := data[..];
    var a, b := 0, block;
    ghost var k := 0;
    BlocksStart(was, was, block, less);
    while b <= n
      invariant b == a + block && a <= n
      invariant Blocks(data[..], was, a, block, k, less) && data[a..] == was[a..]
    {
      ghost var cur := data[..];
      calls := InsertionSort(data, a, b, less, calls);
      assert cur[a..b] == cur[a..][..b - a] && was[a..b] == was[a..][..b - a];
      BlocksStep(data[..], cur, was, a, b, block, k, less);
      assert data[b..] == was[a..][b - a..];
      a := b;
      b := b + block;
      k := k + 1;
    }
    ghost var cur := data[..];
    calls := InsertionSort(data, a, n, less, calls);
    assert cur[a..n] == cur[a..] && was[a..n] == was[a..];
    BlocksStep(data[..], cur, was, a, n, block, k, less);
  }

  lemma PassStart<T(!new)>(cur: seq<T>, was: seq<T>, c: nat, less: Less<T>)
    requires c > 0 && multiset(cur) == multiset(was) && |cur| == |was| && (Consistent(less) ==> Chunked(cur, was, c, less))
    ensures Blocks(cur, was, 0, 2 * c, 0, less) && Ahead(cur, was, 0, c, less)
  {
    hide *;
    BlocksStart(cur, was, 2 * c, less);
    BlocksStart(cur, was, c, less);
  }

  /** Two sorted blocks were merged. */
  lemma PassStep<T(!new)>(now: seq<T>, cur: seq<T>, was: seq<T>, a: nat, b: nat, c: nat, k: nat, less: Less<T>)
    requires c > 0 && b == a + 2 * c <= |was| && |cur| == |was|
    requires Blocks(cur, was, a, 2 * c, k, less) && Ahead(cur, was, a, c, less) && MergedFrom(now, cur, a, a + c, b, less)
    ensures Blocks(now, was, b, 2 * c, k + 1, less) && Ahead(now, was, b, c, less)
  {
    hide *;
    NextRuns(cur, was, a, b, c, less);
    MergedRuns(now, cur, was, a, a + c, b, less);
    BlocksStep(now, cur, was, a, b, 2 * c, k, less);
    AheadKept(now, cur, was, b, c, less);
  }

  /** What is left at the end of a pass was merged, or is one sorted block. */
  lemma PassEnd<T(!new)>(now: seq<T>, cur: seq<T>, was: seq<T>, a: nat, c: nat, k: nat, less: Less<T>)
    requires c > 0 && a <= |was| < a + 2 * c && |cur| == |was|
    requires Blocks(cur, was, a, 2 * c, k, less) && Ahead(cur, was, a, c, less)
    requires if a + c < |was| then MergedFrom(now, cur, a, a + c, |was|, less) else now == cur
    ensures multiset(now) == multiset(was) && (Consistent(less) ==> Chunked(now, was, 2 * c, less))
  {
    hide *;
    if a + c < |was| {
      NextRuns(cur, was, a, |was|, c, less);
      MergedRuns(now, cur, was, a, a + c, |was|, less);
    } else {
      LastBlock(cur, was, a, c, less);
    }
    BlocksStep(now, cur, was, a, |was|, 2 * c, k, less);
  }

  /**
   Sorts stably. Whatever `less` answers, the result is a permutation and no index leaves the
   array; when the answers are those of one strict weak order it is exactly the stable sort.
   */
  method SliceStable<T(!new)>(data: array<T>, less: Less<T>)
    modifies data
    ensures multiset(data[..]) == old(multiset(data[..]))
    ensures Consistent(less) ==> data[..] == StableSort(old(data[..]), less)
  {
    hide *;
    var n, block := data.Length, 20;
    ghost var was := data[..];
    var calls := SortBlocks(data, block, less);
    while block < n
      invariant block > 0 && multiset(data[..]) == multiset(was)
      invariant Consistent(less) ==> Chunked(data[..], was, block, less)
      decreases n - block
    {
      var a, b := 0, 2 * block;
      ghost var k := 0;
      PassStart(data[..], was, block, less);
      while b <= n
        invariant b == a + 2 * block && a <= n
        invariant Blocks(data[..], was, a, 2 * block, k, less) && Ahead(data[..], was, a, block, less)
      {
        ghost var cur := data[..];
        calls := SymMerge(data, a, a + block, b, less, calls);
        PassStep(data[..], cur, was, a, b, block, k, less);
        a := b;
        b := b + 2 * block;
        k := k + 1;
      }
      ghost var cur := data[..];
      if a + block < n {
        calls := SymMerge(data, a, a + block, n, less, calls);
      }
      PassEnd(data[..], cur, was, a, block, k, less);
      block := block * 2;
    }
    if Consistent(less) {
      WholeChunk(data[..], was, block, less);
    }
  }
}
