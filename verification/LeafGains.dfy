/** What is left to gain in the leaves of a grown tree: nothing above the bound, by any
    cut the builder looked at and by any threshold on a used feature. */
module LeafGains {
  import opened CandleOrder
  import opened TreeShape

  /** The candles a threshold test sends left, and the others. */
  function Below(s: seq<Candle>, f: nat, x: Candle): seq<Candle> {
    if s == [] then [] else Below(s[..|s| - 1], f, x) + (if Compare(s[|s| - 1], x, f) < 0 then [s[|s| - 1]] else [])
  }

  function NotBelow(s: seq<Candle>, f: nat, x: Candle): seq<Candle> {
    if s == [] then [] else NotBelow(s[..|s| - 1], f, x) + (if Compare(s[|s| - 1], x, f) < 0 then [] else [s[|s| - 1]])
  }

  /** What testing `s` against the key of `x` on feature `f` gains. */
  function TestGain(sc: Scoring, s: seq<Candle>, f: nat, x: Candle): real
    requires Below(s, f, x) != []
  {
    var l, r := Below(s, f, x), NotBelow(s, f, x);
    InfoGain(Entropy(sc, s), |l|, Entropy(sc, l), |r|, Entropy(sc, r))
  }

  /** The builder found no cut of `s0` worth making, and left its candles as `s`. */
  ghost predicate NoCutGains(sc: Scoring, features: seq<nat>, s0: seq<Candle>, s: seq<Candle>) {
    s == FinalOrder(features, s0) && NoneGains(sc, Entropy(sc, s0), Splits(features, s0))
  }

  ghost predicate NoTestGains(sc: Scoring, features: seq<nat>, s: seq<Candle>) {
    forall f, x | f in features && x in s && Below(s, f, x) != [] :: TestGain(sc, s, f, x) <= sc.minGain
  }

  /** Every leaf is pure, or neither a cut nor a test gains more than the bound. */
  ghost predicate LeavesDone(sc: Scoring, features: seq<nat>, t: DTree) {
    match t
    case Leaf(s) => Pure(s) || ((exists s0 :: NoCutGains(sc, features, s0, s)) && NoTestGains(sc, features, s))
    case Node(_, _, _, l, r) => LeavesDone(sc, features, l) && LeavesDone(sc, features, r)
  }

  // ----- counts do not depend on the order -----

  lemma {:induction false} CountParts(a: seq<Candle>, b: seq<Candle>, cls: int)
    ensures Count(a + b, cls) == Count(a, cls) + Count(b, cls)
    decreases |b|
  {
    if b == [] {
      assert a + b == a;
    } else {
      assert (a + b)[..|a + b| - 1] == a + b[..|b| - 1];
      CountParts(a, b[..|b| - 1], cls);
    }
  }

  lemma Without(b: seq<Candle>, i: nat, cls: int)
    requires i < |b|
    ensures var rest := b[..i] + b[i + 1..];
            && multiset(rest) == multiset(b) - multiset{b[i]}
            && Count(b, cls) == Count(rest, cls) + Count([b[i]], cls)
  {
    var l, x, r := b[..i], [b[i]], b[i + 1..];
    assert b == l + (x + r);
    CountParts(l, r, cls);
    CountParts(l, x + r, cls);
    CountParts(x, r, cls);
  }

  lemma {:induction false} CountSame(a: seq<Candle>, b: seq<Candle>, cls: int)
    requires multiset(a) == multiset(b)
    ensures Count(a, cls) == Count(b, cls)
    decreases |a|
  {
    SameMembers(a, b);
    if a != [] {
      hide Count;
      assert a[0] in b;
      var i :| 0 <= i < |b| && b[i] == a[0];
      var lessA, lessB := a[..0] + a[1..], b[..i] + b[i + 1..];
      Without(a, 0, cls);
      Without(b, i, cls);
      assert |lessA| == |a| - 1 && multiset(lessA) == multiset(lessB);
      CountSame(lessA, lessB, cls);
    }
  }

  lemma EntropySame(sc: Scoring, a: seq<Candle>, b: seq<Candle>)
    requires multiset(a) == multiset(b)
    ensures |a| == |b| && Entropy(sc, a) == Entropy(sc, b)
  {
    SameMembers(a, b);
    CountSame(a, b, 1);
    CountSame(a, b, -1);
    CountSame(a, b, 0);
  }

  // ----- a test is a cut of the sorted list -----

  lemma {:induction false} BelowMembers(s: seq<Candle>, f: nat, x: Candle)
    ensures forall c :: multiset(Below(s, f, x))[c] == if Compare(c, x, f) < 0 then multiset(s)[c] else 0
    ensures forall c :: multiset(NotBelow(s, f, x))[c] == if Compare(c, x, f) < 0 then 0 else multiset(s)[c]
  {
    if s == [] {
    } else {
      var init, last := s[..|s| - 1], s[|s| - 1];
      BelowMembers(init, f, x);
      assert s == init + [last];
    }
  }

  lemma TestSame(sc: Scoring, a: seq<Candle>, b: seq<Candle>, f: nat, x: Candle)
    requires multiset(a) == multiset(b) && Below(a, f, x) != []
    ensures Below(b, f, x) != [] && TestGain(sc, a, f, x) == TestGain(sc, b, f, x)
  {
    BelowMembers(a, f, x);
    BelowMembers(b, f, x);
    hide Below, NotBelow;
    assert multiset(Below(a, f, x)) == multiset(Below(b, f, x));
    assert multiset(NotBelow(a, f, x)) == multiset(NotBelow(b, f, x));
    EntropySame(sc, a, b);
    EntropySame(sc, Below(a, f, x), Below(b, f, x));
    EntropySame(sc, NotBelow(a, f, x), NotBelow(b, f, x));
  }

  lemma LastSent(s: seq<Candle>, f: nat, x: Candle)
    requires s != []
    ensures var init, last := s[..|s| - 1], s[|s| - 1];
            && s == init + [last]
            && if Compare(last, x, f) < 0
               then Below(s, f, x) == Below(init, f, x) + [last] && NotBelow(s, f, x) == NotBelow(init, f, x)
               else Below(s, f, x) == Below(init, f, x) && NotBelow(s, f, x) == NotBelow(init, f, x) + [last]
  {
    hide Compare;
    var init := s[..|s| - 1];
    assert Below(init, f, x) + [] == Below(init, f, x) && NotBelow(init, f, x) + [] == NotBelow(init, f, x);
  }

  lemma {:induction false} BelowIsPrefix(t: seq<Candle>, f: nat, x: Candle)
    requires Sorted(t, f)
    ensures Below(t, f, x) + NotBelow(t, f, x) == t
    ensures forall c | c in NotBelow(t, f, x) :: Compare(c, x, f) >= 0 && c in t
  {
    if t == [] {
    } else {
      var init, last := t[..|t| - 1], t[|t| - 1];
      BelowIsPrefix(init, f, x);
      LastSent(t, f, x);
      hide Compare, Below, NotBelow;
      if Compare(last, x, f) < 0 {
        if NotBelow(init, f, x) != [] {
          var c := NotBelow(init, f, x)[0];
          assert c in init && Compare(c, last, f) <= 0;
          EqualKeys(c, last, x, f);
        }
      } else {
        assert Below(init, f, x) + (NotBelow(init, f, x) + [last]) == Below(init, f, x) + NotBelow(init, f, x) + [last];
      }
    }
  }

  lemma EqualKeys(c: Candle, last: Candle, x: Candle, f: nat)
    requires Compare(c, last, f) <= 0 && Compare(last, x, f) < 0
    ensures Compare(c, x, f) < 0
  {
    CompareTransitive(c, last, x, f);
    if Compare(c, x, f) == 0 {
      CompareTotal(x, c, f);
      CompareTotal(c, x, f);
      CompareTransitive(x, c, last, f);
      CompareTotal(last, x, f);
      CompareTotal(x, last, f);
    }
  }

  lemma {:induction false} FeatureSorted(features: seq<nat>, s: seq<Candle>, f: nat) returns (t: seq<Candle>)
    requires f in features
    ensures multiset(t) == multiset(s) && Sorted(t, f)
    ensures forall c | c in SplitsOf(f, t) :: c in Splits(features, s)
  {
    var first := StableSort(s, features[0]);
    StableSortSorts(s, features[0]);
    if f == features[0] {
      t := first;
    } else {
      t := FeatureSorted(features[1..], first, f);
    }
  }

  lemma StaysRight(t: seq<Candle>, f: nat, x: Candle)
    requires x in t
    ensures NotBelow(t, f, x) != []
  {
    BelowMembers(t, f, x);
    CompareTotal(x, x, f);
    hide Below, NotBelow, Compare;
    assert x in multiset(t);
    assert multiset(NotBelow(t, f, x))[x] > 0;
  }

  lemma TestIsCandidate(t: seq<Candle>, f: nat, x: Candle)
    requires Sorted(t, f) && x in t && Below(t, f, x) != []
    ensures var n := |Below(t, f, x)|;
            && 0 < n < |t| && t[..n] == Below(t, f, x) && t[n..] == NotBelow(t, f, x)
            && Split(f, n, t) in SplitsOf(f, t)
  {
    hide Below, NotBelow, Sorted, Compare;
    BelowIsPrefix(t, f, x);
    StaysRight(t, f, x);
    var n := |Below(t, f, x)|;
    assert SplitsOf(f, t)[n - 1] == Split(f, n, t);
  }

  lemma TestIsCut(sc: Scoring, features: seq<nat>, s: seq<Candle>, f: nat, x: Candle)
    requires f in features && x in s && Below(s, f, x) != []
    requires NoneGains(sc, Entropy(sc, s), Splits(features, s))
    ensures TestGain(sc, s, f, x) <= sc.minGain
  {
    hide Below, NotBelow, Splits, SplitsOf, Entropy, InfoGain, Sorted;
    var t := FeatureSorted(features, s, f);
    TestSame(sc, s, t, f, x);
    SameMembers(s, t);
    EntropySame(sc, s, t);
    TestIsCandidate(t, f, x);
    var c: Candidate := Split(f, |Below(t, f, x)|, t);
    assert c in Splits(features, s) && Gain(sc, Entropy(sc, s), c) == TestGain(sc, t, f, x);
  }

  lemma {:induction false} GrownLeavesDone(sc: Scoring, features: seq<nat>, s: seq<Candle>, t: DTree)
    requires ZeroIffPure(sc) && s != [] && Grown(sc, features, s, t)
    ensures LeavesDone(sc, features, t)
    decreases t
  {
    EntropyZero(sc, s);
    if t.Node? {
      var cs, e := Splits(features, s), Entropy(sc, s);
      var k :| ChosenSplit(sc, features, s, t, k);
      GrownLeavesDone(sc, features, cs[k].Left(), t.left);
      GrownLeavesDone(sc, features, cs[k].Right(), t.right);
    } else if !Pure(t.instances) {
      assert NoCutGains(sc, features, s, t.instances);
      SplitsShape(features, s);
      SameMembers(s, t.instances);
      forall f, x | f in features && x in t.instances && Below(t.instances, f, x) != []
        ensures TestGain(sc, t.instances, f, x) <= sc.minGain
      {
        TestSame(sc, t.instances, s, f, x);
        TestIsCut(sc, features, s, f, x);
      }
    }
  }
}
