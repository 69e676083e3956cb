/** Labelled candles, the comparisons on their features and the stable sort the
    tree builder uses (Cassandra/src/CandleStick.java). Prices are real numbers. */
module CandleOrder {

  datatype Candle = Candle(pair: string, time: string, high: real, low: real, close: real, tag: int)

  /** String.compareTo */
  function CompareText(a: string, b: string): int {
    if a == [] || b == [] then |a| - |b|
    else if a[0] != b[0] then a[0] as int - b[0] as int
    else CompareText(a[1..], b[1..])
  }

  /** Double.compareTo, away from NaN and signed zeros. */
  function ComparePrice(a: real, b: real): int {
    if a < b then -1 else if a > b then 1 else 0
  }

  /** compareWith: 0 time, 1 high, 2 low, 3 close; any other index compares equal. */
  function Compare(a: Candle, b: Candle, f: int): int {
    if f == 0 then CompareText(a.time, b.time)
    else if f == 1 then ComparePrice(a.high, b.high)
    else if f == 2 then ComparePrice(a.low, b.low)
    else if f == 3 then ComparePrice(a.close, b.close)
    else 0
  }

  // ----- what the comparisons mean -----

  /** `a` is a proper beginning of `b`, or smaller where the two first differ. */
  ghost predicate TextBelow(a: string, b: string) {
    exists k | 0 <= k <= |a| && k < |b| :: a[..k] == b[..k] && (k == |a| || a[k] < b[k])
  }

  ghost predicate FieldBelow(a: Candle, b: Candle, f: int) {
    match f
    case 0 => TextBelow(a.time, b.time)
    case 1 => a.high < b.high
    case 2 => a.low < b.low
    case 3 => a.close < b.close
    case _ => false
  }

  ghost predicate SameField(a: Candle, b: Candle, f: int) {
    match f
    case 0 => a.time == b.time
    case 1 => a.high == b.high
    case 2 => a.low == b.low
    case 3 => a.close == b.close
    case _ => true
  }

  lemma TextBelowStep(a: string, b: string)
    requires a != [] && b != []
    ensures TextBelow(a, b) <==> a[0] < b[0] || (a[0] == b[0] && TextBelow(a[1..], b[1..]))
  {
    var u, v := a[1..], b[1..];
    if a[0] < b[0] {
      assert a[..0] == b[..0];
    }
    if a[0] == b[0] && TextBelow(u, v) {
      var k :| 0 <= k <= |u| && k < |v| && u[..k] == v[..k] && (k == |u| || u[k] < v[k]);
      assert a[..k + 1] == [a[0]] + u[..k] && b[..k + 1] == [b[0]] + v[..k];
    }
    if TextBelow(a, b) {
      var k :| 0 <= k <= |a| && k < |b| && a[..k] == b[..k] && (k == |a| || a[k] < b[k]);
      if k > 0 {
        assert a[0] == a[..k][0] && b[0] == b[..k][0];
        assert u[..k - 1] == a[..k][1..] && v[..k - 1] == b[..k][1..];
      }
    }
  }

  lemma {:induction false} TextMeans(a: string, b: string)
    ensures CompareText(a, b) < 0 <==> TextBelow(a, b)
    ensures CompareText(a, b) == 0 <==> a == b
  {
    if a == [] || b == [] {
      assert a[..0] == b[..0];
    } else {
      hide TextBelow;
      TextBelowStep(a, b);
      TextMeans(a[1..], b[1..]);
      assert a == [a[0]] + a[1..] && b == [b[0]] + b[1..];
    }
  }

  /** Feature 0 is the time, as text, 1 the high, 2 the low and 3 the close. */
  lemma CompareMeans(a: Candle, b: Candle, f: int)
    ensures Compare(a, b, f) < 0 <==> FieldBelow(a, b, f)
    ensures Compare(a, b, f) == 0 <==> SameField(a, b, f)
    ensures Compare(a, b, f) > 0 <==> FieldBelow(b, a, f)
  {
    TextMeans(a.time, b.time);
    TextMeans(b.time, a.time);
    TextTotal(a.time, b.time);
    TextTotal(b.time, a.time);
  }

  lemma TextTotal(a: string, b: string)
    ensures CompareText(a, b) < 0 <==> CompareText(b, a) > 0
    ensures CompareText(a, b) == 0 <==> a == b
  {
    if a != [] && b != [] && a[0] == b[0] {
      TextTotal(a[1..], b[1..]);
      assert a == [a[0]] + a[1..] && b == [b[0]] + b[1..];
    }
  }

  lemma TextTransitive(a: string, b: string, c: string)
    requires CompareText(a, b) <= 0 && CompareText(b, c) <= 0
    ensures CompareText(a, c) <= 0
  {
    if a != [] && b != [] && c != [] && a[0] == b[0] == c[0] {
      TextTransitive(a[1..], b[1..], c[1..]);
    }
  }

  lemma CompareTotal(a: Candle, b: Candle, f: int)
    ensures Compare(a, b, f) < 0 <==> Compare(b, a, f) > 0
  {
    TextTotal(a.time, b.time);
  }

  lemma CompareTransitive(a: Candle, b: Candle, c: Candle, f: int)
    requires Compare(a, b, f) <= 0 && Compare(b, c, f) <= 0
    ensures Compare(a, c, f) <= 0
  {
    if f == 0 {
      TextTransitive(a.time, b.time, c.time);
    }
  }

  ghost predicate Sorted(s: seq<Candle>, f: int) {
    forall i, j | 0 <= i < j < |s| :: Compare(s[i], s[j], f) <= 0
  }

  function Insert(x: Candle, s: seq<Candle>, f: int): seq<Candle> {
    if s == [] || Compare(x, s[0], f) <= 0 then [x] + s else [s[0]] + Insert(x, s[1..], f)
  }

  /** List.sort is stable, which makes its result unique; insertion computes it. */
  function StableSort(s: seq<Candle>, f: int): seq<Candle> {
    if s == [] then [] else Insert(s[0], StableSort(s[1..], f), f)
  }

  /** The elements whose key is that of `x`, in order. */
  function SameKey(x: Candle, s: seq<Candle>, f: int): seq<Candle> {
    if s == [] then []
    else (if Compare(x, s[0], f) == 0 then [s[0]] else []) + SameKey(x, s[1..], f)
  }

  lemma {:induction false} InsertAdds(x: Candle, s: seq<Candle>, f: int)
    ensures multiset(Insert(x, s, f)) == multiset{x} + multiset(s)
    ensures forall y :: y in Insert(x, s, f) <==> y == x || y in s
  {
    if s != [] && Compare(x, s[0], f) > 0 {
      InsertAdds(x, s[1..], f);
      assert s == [s[0]] + s[1..];
    }
  }

  lemma {:induction false} InsertSorts(x: Candle, s: seq<Candle>, f: int)
    requires Sorted(s, f)
    ensures Sorted(Insert(x, s, f), f)
  {
    var r := Insert(x, s, f);
    if s == [] {
    } else if Compare(x, s[0], f) <= 0 {
      forall j | 0 < j < |r| ensures Compare(r[0], r[j], f) <= 0 {
        if j > 1 {
          CompareTransitive(x, s[0], s[j - 1], f);
        }
      }
    } else {
      var t := Insert(x, s[1..], f);
      InsertAdds(x, s[1..], f);
      InsertSorts(x, s[1..], f);
      CompareTotal(x, s[0], f);
      forall j | 0 < j < |r| ensures Compare(r[0], r[j], f) <= 0 {
        assert r[j] == t[j - 1] && t[j - 1] in t;
      }
    }
  }

  lemma {:induction false} InsertKeepsKeys(x: Candle, s: seq<Candle>, f: int, k: Candle)
    requires Sorted(s, f)
    ensures SameKey(k, Insert(x, s, f), f) == SameKey(k, [x] + s, f)
  {
    assert ([x] + s)[1..] == s;
    if s == [] || Compare(x, s[0], f) <= 0 {
    } else {
      var rest := s[1..];
      InsertKeepsKeys(x, rest, f, k);
      assert ([x] + rest)[1..] == rest;
      assert ([s[0]] + Insert(x, rest, f))[1..] == Insert(x, rest, f);
      if Compare(k, x, f) == 0 && Compare(k, s[0], f) == 0 {
        CompareTotal(k, x, f);
        CompareTotal(x, k, f);
        CompareTransitive(x, k, s[0], f);
        assert false;
      }
    }
  }

  /** Sorted, the same candles, and equal keys in their old order. */
  lemma {:induction false} StableSortSorts(s: seq<Candle>, f: int)
    ensures Sorted(StableSort(s, f), f)
    ensures multiset(StableSort(s, f)) == multiset(s)
    ensures |StableSort(s, f)| == |s|
    ensures forall k :: SameKey(k, StableSort(s, f), f) == SameKey(k, s, f)
  {
    if s == [] {
    } else {
      StableSortSorts(s[1..], f);
      var t := StableSort(s[1..], f);
      InsertAdds(s[0], t, f);
      InsertSorts(s[0], t, f);
      assert s == [s[0]] + s[1..];
      assert |multiset(StableSort(s, f))| == |multiset(s)|;
      forall k ensures SameKey(k, StableSort(s, f), f) == SameKey(k, s, f) {
        InsertKeepsKeys(s[0], t, f, k);
        SameKeyPush(k, s[0], t, s[1..], f);
      }
    }
  }

  lemma SameKeyPush(k: Candle, x: Candle, a: seq<Candle>, b: seq<Candle>, f: int)
    requires SameKey(k, a, f) == SameKey(k, b, f)
    ensures SameKey(k, [x] + a, f) == SameKey(k, [x] + b, f)
  {
    assert ([x] + a)[1..] == a && ([x] + b)[1..] == b;
  }

  lemma {:induction false} SameKeyMember(k: Candle, s: seq<Candle>, f: int)
    ensures SameKey(k, s, f) != [] ==> exists i :: 0 <= i < |s| && Compare(k, s[i], f) == 0
  {
    if s != [] && Compare(k, s[0], f) != 0 {
      SameKeyMember(k, s[1..], f);
      if SameKey(k, s[1..], f) != [] {
        var i :| 0 <= i < |s[1..]| && Compare(k, s[1..][i], f) == 0;
        assert s[i + 1] == s[1..][i];
      }
    }
  }

  lemma HeadBelow(a: seq<Candle>, b: seq<Candle>, f: int)
    requires a != [] && Sorted(b, f)
    requires SameKey(a[0], a, f) == SameKey(a[0], b, f)
    ensures b != [] && Compare(b[0], a[0], f) <= 0
  {
    CompareTotal(a[0], a[0], f);
    SameKeyMember(a[0], b, f);
    var i :| 0 <= i < |b| && Compare(a[0], b[i], f) == 0;
    CompareTotal(a[0], b[i], f);
    CompareTotal(b[i], a[0], f);
    CompareTotal(b[0], b[0], f);
    if i > 0 {
      CompareTransitive(b[0], b[i], a[0], f);
    }
  }

  /** Any stable sort returns the same list. */
  lemma {:induction false} StableUnique(a: seq<Candle>, b: seq<Candle>, f: int)
    requires Sorted(a, f) && Sorted(b, f)
    requires forall k :: SameKey(k, a, f) == SameKey(k, b, f)
    ensures a == b
  {
    if a == [] && b == [] {
    } else if a == [] {
      HeadBelow(b, a, f);
      assert false;
    } else {
      HeadBelow(a, b, f);
      HeadBelow(b, a, f);
      CompareTotal(a[0], b[0], f);
      CompareTotal(a[0], a[0], f);
      assert SameKey(a[0], a, f) == SameKey(a[0], b, f);
      assert SameKey(a[0], a, f)[0] == a[0] && SameKey(a[0], b, f)[0] == b[0];
      forall k ensures SameKey(k, a[1..], f) == SameKey(k, b[1..], f) {
        assert SameKey(k, a, f) == SameKey(k, b, f);
        assert a[0] == b[0];
        if Compare(k, a[0], f) == 0 {
          assert SameKey(k, a[1..], f) == SameKey(k, a, f)[1..];
          assert SameKey(k, b[1..], f) == SameKey(k, b, f)[1..];
        } else {
          assert SameKey(k, a[1..], f) == SameKey(k, a, f);
          assert SameKey(k, b[1..], f) == SameKey(k, b, f);
        }
      }
      StableUnique(a[1..], b[1..], f);
      assert a == [a[0]] + a[1..] && b == [b[0]] + b[1..];
    }
  }
}
