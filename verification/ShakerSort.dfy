/** The bidirectional bubble sort of webapps/static/sorttable.js, on an array and
    with any comparison that is a total preorder. */
module ShakerSort {

  ghost predicate TotalPreorder<T(!new)>(cmp: (T, T) -> int) {
    && (forall x, y :: cmp(x, y) < 0 <==> cmp(y, x) > 0)
    && forall x, y, z :: cmp(x, y) <= 0 && cmp(y, z) <= 0 ==> cmp(x, z) <= 0
  }

  ghost predicate Sorted<T>(cmp: (T, T) -> int, s: seq<T>) {
    forall i, j | 0 <= i < j < |s| :: cmp(s[i], s[j]) <= 0
  }

  /** The elements that compare equal to `x`, in order. */
  ghost function Ties<T>(cmp: (T, T) -> int, x: T, s: seq<T>): seq<T> {
    if s == [] then [] else (if cmp(x, s[0]) == 0 then [s[0]] else []) + Ties(cmp, x, s[1..])
  }

  /** Elements that compare equal stand in the order they had. */
  ghost predicate Stable<T(!new)>(cmp: (T, T) -> int, before: seq<T>, after: seq<T>) {
    forall x :: Ties(cmp, x, after) == Ties(cmp, x, before)
  }

  lemma {:induction false} TiesAppend<T>(cmp: (T, T) -> int, x: T, a: seq<T>, b: seq<T>)
    ensures Ties(cmp, x, a + b) == Ties(cmp, x, a) + Ties(cmp, x, b)
  {
    if a == [] {
      assert a + b == b;
    } else {
      var head := if cmp(x, a[0]) == 0 then [a[0]] else [];
      TiesAppend(cmp, x, a[1..], b);
      calc {
        Ties(cmp, x, a + b);
      == { assert (a + b)[0] == a[0] && (a + b)[1..] == a[1..] + b; }
        head + Ties(cmp, x, a[1..] + b);
      ==
        head + (Ties(cmp, x, a[1..]) + Ties(cmp, x, b));
      ==
        head + Ties(cmp, x, a[1..]) + Ties(cmp, x, b);
      }
    }
  }

  lemma NotBothTied<T(!new)>(cmp: (T, T) -> int, x: T, p: T, q: T)
    requires TotalPreorder(cmp) && cmp(p, q) > 0
    ensures !(cmp(x, p) == 0 && cmp(x, q) == 0)
  {
    if cmp(x, p) == 0 {
      assert cmp(p, x) <= 0;
      assert cmp(x, q) <= 0 ==> cmp(p, q) <= 0;
    }
  }

  lemma TiesPair<T>(cmp: (T, T) -> int, x: T, p: T, q: T)
    ensures Ties(cmp, x, [p, q]) == (if cmp(x, p) == 0 then [p] else []) + (if cmp(x, q) == 0 then [q] else [])
  {
    assert [p, q][1..] == [q] && [q][1..] == [];
    assert Ties(cmp, x, [q]) == if cmp(x, q) == 0 then [q] else [];
  }

  lemma SwapKeepsTiesOf<T(!new)>(cmp: (T, T) -> int, x: T, a: seq<T>, p: T, q: T, b: seq<T>)
    requires TotalPreorder(cmp) && cmp(p, q) > 0
    ensures Ties(cmp, x, a + ([q, p] + b)) == Ties(cmp, x, a + ([p, q] + b))
  {
    NotBothTied(cmp, x, p, q);
    hide *;
    TiesAppend(cmp, x, a, [p, q] + b);
    TiesAppend(cmp, x, a, [q, p] + b);
    TiesAppend(cmp, x, [p, q], b);
    TiesAppend(cmp, x, [q, p], b);
    TiesPair(cmp, x, p, q);
    TiesPair(cmp, x, q, p);
  }

  lemma SwapShape<T>(s: seq<T>, i: nat, r: seq<T>)
    requires i + 1 < |s| && r == s[i := s[i + 1]][i + 1 := s[i]]
    ensures s == s[..i] + ([s[i], s[i + 1]] + s[i + 2..])
    ensures r == s[..i] + ([s[i + 1], s[i]] + s[i + 2..])
  {}

  lemma SwapSame<T>(a: seq<T>, p: T, q: T, b: seq<T>)
    ensures multiset(a + ([q, p] + b)) == multiset(a + ([p, q] + b))
  {
    assert multiset([q, p]) == multiset([p, q]);
  }

  /** Swapping two neighbours that are out of order disturbs no ties. */
  lemma SwapKeepsTies<T(!new)>(cmp: (T, T) -> int, s: seq<T>, i: nat, r: seq<T>)
    requires TotalPreorder(cmp) && i + 1 < |s| && cmp(s[i], s[i + 1]) > 0
    requires r == s[i := s[i + 1]][i + 1 := s[i]]
    ensures Stable(cmp, s, r) && multiset(r) == multiset(s)
  {
    var a, b := s[..i], s[i + 2..];
    var p, q := s[i], s[i + 1];
    SwapShape(s, i, r);
    SwapSame(a, p, q, b);
    hide Ties;
    forall x ensures Ties(cmp, x, r) == Ties(cmp, x, s) {
      SwapKeepsTiesOf(cmp, x, a, p, q, b);
    }
  }

  method SwapNeighbours<T(!new)>(list: array<T>, i: nat, cmp: (T, T) -> int)
    requires TotalPreorder(cmp) && i + 1 < list.Length && cmp(list[i], list[i + 1]) > 0
    modifies list
    ensures list[..] == old(list[..])[i := old(list[i + 1])][i + 1 := old(list[i])]
    ensures Rearranged(cmp, old(list[..]), list[..])
  {
    ghost var before := list[..];
    var q := list[i];
    list[i] := list[i + 1];
    list[i + 1] := q;
    SwapKeepsTies(cmp, before, i, list[..]);
  }

  /** What lies outside [b..t] is in its final place. */
  ghost predicate Settled<T>(cmp: (T, T) -> int, s: seq<T>, b: int, t: int) {
    forall i, j | 0 <= i < j < |s| && (i < b || j > t) :: cmp(s[i], s[j]) <= 0
  }

  ghost predicate Greatest<T>(cmp: (T, T) -> int, s: seq<T>, lo: int, i: int) {
    0 <= lo && i < |s| && forall k | lo <= k <= i :: cmp(s[k], s[i]) <= 0
  }

  ghost predicate Least<T>(cmp: (T, T) -> int, s: seq<T>, i: int, hi: int) {
    0 <= i && hi < |s| && forall k | i <= k <= hi :: cmp(s[i], s[k]) <= 0
  }

  ghost predicate SortedWithin<T>(cmp: (T, T) -> int, s: seq<T>, lo: int, hi: int) {
    0 <= lo && hi < |s| && forall j, k | lo <= j < k <= hi :: cmp(s[j], s[k]) <= 0
  }

  lemma SettledSwap<T(!new)>(cmp: (T, T) -> int, s: seq<T>, b: int, t: int, i: nat)
    requires Settled(cmp, s, b, t) && b <= i < i + 1 <= t < |s|
    ensures Settled(cmp, s[i := s[i + 1]][i + 1 := s[i]], b, t)
  {}

  lemma UpStep<T(!new)>(cmp: (T, T) -> int, s: seq<T>, b: nat, i: nat)
    requires TotalPreorder(cmp) && b <= i < |s| - 1 && Greatest(cmp, s, b, i)
    ensures cmp(s[i], s[i + 1]) > 0 ==> Greatest(cmp, s[i := s[i + 1]][i + 1 := s[i]], b, i + 1)
    ensures cmp(s[i], s[i + 1]) <= 0 ==> Greatest(cmp, s, b, i + 1)
    ensures cmp(s[i], s[i + 1]) <= 0 && SortedWithin(cmp, s, b, i) ==> SortedWithin(cmp, s, b, i + 1)
  {
    assert cmp(s[i + 1], s[i + 1]) == 0;
    assert cmp(s[i], s[i]) == 0;
  }

  lemma DownStep<T(!new)>(cmp: (T, T) -> int, s: seq<T>, i: nat, t: int)
    requires TotalPreorder(cmp) && 0 < i <= t < |s| && Least(cmp, s, i, t)
    ensures cmp(s[i], s[i - 1]) < 0 ==> Least(cmp, s[i - 1 := s[i]][i := s[i - 1]], i - 1, t)
    ensures cmp(s[i], s[i - 1]) >= 0 ==> Least(cmp, s, i - 1, t)
  {
    assert cmp(s[i - 1], s[i - 1]) == 0;
    assert cmp(s[i], s[i]) == 0;
  }

  /** `after` is `before` with ties kept: the same elements, equal ones in their order. */
  ghost predicate Rearranged<T(!new)>(cmp: (T, T) -> int, before: seq<T>, after: seq<T>) {
    Stable(cmp, before, after) && multiset(after) == multiset(before) && |after| == |before|
  }

  lemma RearrangedTwice<T(!new)>(cmp: (T, T) -> int, a: seq<T>, b: seq<T>, c: seq<T>)
    requires Rearranged(cmp, a, b) && Rearranged(cmp, b, c)
    ensures Rearranged(cmp, a, c)
  {}

  lemma SweepStarts<T(!new)>(cmp: (T, T) -> int, s: seq<T>, b: nat, t: int)
    requires TotalPreorder(cmp) && t < |s|
    ensures Rearranged(cmp, s, s)
    ensures b <= t ==> Greatest(cmp, s, b, b) && SortedWithin(cmp, s, b, b) && Least(cmp, s, t, t)
  {
    if b <= t {
      assert cmp(s[b], s[b]) == 0 && cmp(s[t], s[t]) == 0;
    }
  }

  lemma SweepEnds<T(!new)>(cmp: (T, T) -> int, s: seq<T>, b: nat, t: int)
    requires Settled(cmp, s, b, t) && t < |s|
    ensures (b <= t ==> Greatest(cmp, s, b, t)) ==> Settled(cmp, s, b, t - 1)
    ensures (b <= t ==> Least(cmp, s, b, t)) ==> Settled(cmp, s, b + 1, t)
    ensures (b <= t ==> SortedWithin(cmp, s, b, t)) ==> Sorted(cmp, s)
  {}

  /** The upward pass. Without a swap the range was in order already. */
  method SweepUp<T(!new)>(list: array<T>, cmp: (T, T) -> int, b: nat, t: int) returns (swap: bool)
    requires TotalPreorder(cmp) && t < list.Length && Settled(cmp, list[..], b, t)
    modifies list
    ensures Settled(cmp, list[..], b, t - 1)
    ensures Rearranged(cmp, old(list[..]), list[..])
    ensures swap ==> b < t
    ensures !swap ==> Sorted(cmp, list[..])
  {
    hide *;
    ghost var start := list[..];
    SweepStarts(cmp, start, b, t);
    swap := false;
    var i := b;
    while i < t
      invariant b <= i && (i <= t || i == b)
      invariant Settled(cmp, list[..], b, t)
      invariant b <= t ==> Greatest(cmp, list[..], b, i)
      invariant Rearranged(cmp, start, list[..])
      invariant swap ==> b < t
      invariant !swap && b <= t ==> SortedWithin(cmp, list[..], b, i)
    {
      ghost var s := list[..];
      UpStep(cmp, s, b, i);
      if cmp(list[i], list[i + 1]) > 0 {
        SettledSwap(cmp, s, b, t, i);
        SwapNeighbours(list, i, cmp);
        RearrangedTwice(cmp, start, s, list[..]);
        swap := true;
      }
      i := i + 1;
    }
    SweepEnds(cmp, list[..], b, t);
  }

  /** The downward pass. */
  method SweepDown<T(!new)>(list: array<T>, cmp: (T, T) -> int, b: nat, t: int)
    requires TotalPreorder(cmp) && t < list.Length && Settled(cmp, list[..], b, t)
    modifies list
    ensures Settled(cmp, list[..], b + 1, t)
    ensures Rearranged(cmp, old(list[..]), list[..])
  {
    hide *;
    ghost var start := list[..];
    SweepStarts(cmp, start, b, t);
    var i := t;
    while i > b
      invariant i <= t && (i >= b || i == t)
      invariant Settled(cmp, list[..], b, t)
      invariant b <= t ==> Least(cmp, list[..], i, t)
      invariant Rearranged(cmp, start, list[..])
    {
      ghost var s := list[..];
      DownStep(cmp, s, i, t);
      if cmp(list[i], list[i - 1]) < 0 {
        SettledSwap(cmp, s, b, t, i - 1);
        Turned(cmp, s, i);
        SwapNeighbours(list, i - 1, cmp);
        RearrangedTwice(cmp, start, s, list[..]);
      }
      i := i - 1;
    }
    SweepEnds(cmp, list[..], b, t);
  }

  lemma Turned<T(!new)>(cmp: (T, T) -> int, s: seq<T>, i: nat)
    requires TotalPreorder(cmp) && 0 < i < |s| && cmp(s[i], s[i - 1]) < 0
    ensures cmp(s[i - 1], s[i]) > 0
  {}

  /** shaker_sort: sorted, the same elements, and ties in their old order. */
  method Sort<T(!new)>(list: array<T>, cmp: (T, T) -> int)
    requires TotalPreorder(cmp)
    modifies list
    ensures Sorted(cmp, list[..])
    ensures Stable(cmp, old(list[..]), list[..])
    ensures multiset(list[..]) == multiset(old(list[..]))
  {
    ghost var start := list[..];
    var b := 0;
    var t := list.Length - 1;
    var swap := true;
    while swap
      invariant 0 <= b && t < list.Length && t - b >= -1
      invariant swap ==> Settled(cmp, list[..], b, t)
      invariant Rearranged(cmp, start, list[..])
      invariant !swap ==> Sorted(cmp, list[..])
      decreases t - b, swap
    {
      ghost var s := list[..];
      swap := SweepUp(list, cmp, b, t);
      RearrangedTwice(cmp, start, s, list[..]);
      t := t - 1;
      if !swap {
        break;
      }
      s := list[..];
      SweepDown(list, cmp, b, t);
      RearrangedTwice(cmp, start, s, list[..]);
      b := b + 1;
    }
  }
}
