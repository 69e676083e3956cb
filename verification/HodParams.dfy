/** Key=value strings as hodrings report them (hodlib/Common/util.py). */
module HodParams {
  import opened Common

  /** What stands before the first `c`; the whole string if there is none. */
  function Upto(s: string, c: char): string {
    if s == [] || s[0] == c then "" else [s[0]] + Upto(s[1..], c)
  }

  /** Number of pieces of Python's split: occurrences of `c` plus one. */
  function PieceCount(s: string, c: char): nat {
    if s == [] then 1 else PieceCount(s[1..], c) + (if s[0] == c then 1 else 0)
  }

  /** Python's s.split(c)[1], when there are two pieces or more. */
  function SecondPiece(s: string, c: char): string
    requires c in s
  {
    if s[0] == c then Upto(s[1..], c) else SecondPiece(s[1..], c)
  }

  lemma {:induction false} PairSplits(k: string, v: string, c: char)
    requires c !in k
    ensures Upto(k + [c] + v, c) == k
    ensures SecondPiece(k + [c] + v, c) == Upto(v, c)
  {
    var s := k + [c] + v;
    if k == [] {
      assert s[0] == c && s[1..] == v;
    } else {
      assert s[0] == k[0] && s[1..] == k[1..] + [c] + v;
      PairSplits(k[1..], v, c);
    }
  }

  lemma {:induction false} UptoWhole(s: string, c: char)
    ensures Upto(s, c) == s <==> c !in s
    ensures c !in Upto(s, c)
  {
    if s != [] && s[0] != c {
      UptoWhole(s[1..], c);
      assert s == [s[0]] + s[1..];
    } else if s != [] {
      assert c in s;
    }
  }

  /** parseEquals: later entries overwrite earlier ones; an entry without '=' raises. */
  function ParseEquals(list: seq<string>): Option<map<string, string>>
    decreases |list|
  {
    if list == [] then Some(map[])
    else
      var n := |list| - 1;
      var before := ParseEquals(list[..n]);
      if before.None? || '=' !in list[n] then None
      else Some(before.value[Upto(list[n], '=') := SecondPiece(list[n], '=')])
  }

  method ParseEqualsLoop(list: seq<string>) returns (dict: Option<map<string, string>>)
    ensures dict == ParseEquals(list)
  {
    var d: map<string, string> := map[];
    for i := 0 to |list|
      invariant ParseEquals(list[..i]) == Some(d)
    {
      assert list[..i + 1][..i] == list[..i];
      if '=' !in list[i] {
        RaisesOnwards(list, i + 1);
        return None;
      }
      d := d[Upto(list[i], '=') := SecondPiece(list[i], '=')];
    }
    assert list[..|list|] == list;
    return Some(d);
  }

  lemma {:induction false} RaisesOnwards(list: seq<string>, i: nat)
    requires i <= |list| && ParseEquals(list[..i]).None?
    ensures ParseEquals(list).None?
    decreases |list| - i
  {
    if i < |list| {
      assert list[..i + 1][..i] == list[..i];
      RaisesOnwards(list, i + 1);
    } else {
      assert list[..i] == list;
    }
  }

  /** `s` splits at `c` into `first`, `second` and possibly more. */
  ghost predicate Splits(s: string, c: char, first: string, second: string) {
    && c !in first && c !in second
    && exists rest :: s == first + [c] + rest && (rest == second || second + [c] <= rest)
  }

  lemma SameCut(a: string, b: string, x: string, y: string, c: char)
    requires c !in a && c !in b && a + [c] + x == b + [c] + y
    ensures a == b && x == y
  {
    PairSplits(a, x, c);
    PairSplits(b, y, c);
    assert x == (a + [c] + x)[|a| + 1..] && y == (b + [c] + y)[|b| + 1..];
  }

  lemma {:induction false} CutAt(s: string, c: char) returns (rest: string)
    requires c in s
    ensures s == Upto(s, c) + [c] + rest && c !in Upto(s, c) && SecondPiece(s, c) == Upto(rest, c)
  {
    if s[0] == c {
      rest := s[1..];
    } else {
      rest := CutAt(s[1..], c);
      assert s == [s[0]] + s[1..];
    }
  }

  lemma CutInside(a: string, s: string, c: char)
    ensures a + [c] <= s ==> c in s
  {
    if a + [c] <= s {
      assert s[|a|] == c;
    }
  }

  lemma UptoOnly(rest: string, second: string, c: char)
    ensures c !in second && (rest == second || second + [c] <= rest) <==> second == Upto(rest, c)
  {
    UptoWhole(rest, c);
    if c in rest {
      var more := CutAt(rest, c);
      if c !in second && second + [c] <= rest {
        var tail := rest[|second| + 1..];
        assert rest == second + [c] + tail;
        SameCut(second, Upto(rest, c), tail, more, c);
      }
    } else {
      CutInside(second, rest, c);
    }
  }

  lemma SplitsExactly(s: string, c: char, first: string, second: string)
    requires c in s
    ensures Splits(s, c, first, second) <==> first == Upto(s, c) && second == SecondPiece(s, c)
  {
    hide Upto, SecondPiece;
    var rest := CutAt(s, c);
    UptoOnly(rest, second, c);
    if Splits(s, c, first, second) {
      var r :| s == first + [c] + r && (r == second || second + [c] <= r);
      SameCut(first, Upto(s, c), r, rest, c);
    }
  }

  /** One cut and no more: both sides of it are free of `c`. */
  lemma {:induction false} PiecesCounted(s: string, c: char)
    ensures PieceCount(s, c) == multiset(s)[c] + 1
  {
    if s == [] {
    } else {
      assert s == [s[0]] + s[1..];
      PiecesCounted(s[1..], c);
    }
  }

  lemma AroundCut(first: string, second: string, c: char)
    requires c !in first
    ensures multiset(first + [c] + second)[c] == 1 + multiset(second)[c]
  {
    var s := first + [c] + second;
    assert multiset(s) == multiset(first) + multiset{c} + multiset(second);
    assert multiset(first)[c] == 0;
  }

  lemma TwoPieces(s: string, c: char)
    ensures PieceCount(s, c) == 2
       <==> exists first, second :: c !in first && c !in second && s == first + [c] + second
    ensures forall first, second :: c !in first && s == first + [c] + second ==> Upto(s, c) == first
  {
    hide Upto, PieceCount, SecondPiece;
    PiecesCounted(s, c);
    forall first, second | c !in first && s == first + [c] + second
      ensures Upto(s, c) == first && multiset(s)[c] == 1 + multiset(second)[c]
    {
      PairSplits(first, second, c);
      AroundCut(first, second, c);
    }
    if c in s {
      var rest := CutAt(s, c);
      AroundCut(Upto(s, c), rest, c);
      assert multiset(rest)[c] == 0 <==> c !in rest;
    }
  }

  /** parseEquals raises exactly when some entry has no '='; otherwise each key has
      the value of its last entry, cut at a second '='. */
  lemma {:induction false} ParseEqualsExactly(list: seq<string>)
    ensures ParseEquals(list).None? <==> exists i :: 0 <= i < |list| && '=' !in list[i]
    ensures ParseEquals(list).Some? ==> forall k, v ::
              (k in ParseEquals(list).value && ParseEquals(list).value[k] == v) <==> LastFor(list, k, v)
    decreases |list|
  {
    hide LastFor, Upto, SecondPiece, Splits;
    if list == [] {
      NoneGiven(list);
    } else {
      var n := |list| - 1;
      ParseEqualsExactly(list[..n]);
      assert forall i | 0 <= i < n :: list[..n][i] == list[i];
      if ParseEquals(list).Some? {
        forall k, v
          ensures (k in ParseEquals(list).value && ParseEquals(list).value[k] == v) <==> LastFor(list, k, v)
        {
          LastForStep(list, k, v);
        }
      }
    }
  }

  ghost predicate Gives(list: seq<string>, i: int, k: string, v: string) {
    0 <= i < |list| && Splits(list[i], '=', k, v)
  }

  /** The last entry for `k` gives it the value `v`. */
  ghost predicate LastFor(list: seq<string>, k: string, v: string) {
    exists i :: Gives(list, i, k, v) && forall j, w | i < j < |list| :: !Gives(list, j, k, w)
  }

  lemma NoneGiven(list: seq<string>)
    requires list == []
    ensures forall k, v :: !LastFor(list, k, v)
  {}

  lemma LastForStep(list: seq<string>, k: string, v: string)
    requires list != [] && '=' in list[|list| - 1]
    ensures var e := list[|list| - 1];
            LastFor(list, k, v)
            <==> if k == Upto(e, '=') then v == SecondPiece(e, '=') else LastFor(list[..|list| - 1], k, v)
  {
    hide Upto, SecondPiece, Splits;
    var n := |list| - 1;
    var init, e := list[..n], list[n];
    forall w ensures Gives(list, n, k, w) <==> k == Upto(e, '=') && w == SecondPiece(e, '=') {
      SplitsExactly(e, '=', k, w);
    }
    forall i, w | i < n ensures Gives(list, i, k, w) <==> Gives(init, i, k, w) {}
    if k == Upto(e, '=') {
      assert Gives(list, n, k, SecondPiece(e, '='));
    } else {
      if LastFor(init, k, v) {
        var i :| Gives(init, i, k, v) && forall j, w | i < j < n :: !Gives(init, j, k, w);
        assert Gives(list, i, k, v);
      }
      if LastFor(list, k, v) {
        var i :| Gives(list, i, k, v) && forall j, w | i < j < |list| :: !Gives(list, j, k, w);
        assert Gives(init, i, k, v);
      }
    }
  }

  /** Reports read one after the other: the later one has the last word on each key. */
  lemma {:induction false} ParseEqualsConcat(a: seq<string>, b: seq<string>)
    ensures var (x, y) := (ParseEquals(a), ParseEquals(b));
            ParseEquals(a + b) == if x.None? || y.None? then None else Some(x.value + y.value)
    decreases |b|
  {
    hide Upto, SecondPiece;
    if b == [] {
      assert a + b == a;
      assert ParseEquals(b) == Some(map[]);
      if ParseEquals(a).Some? {
        assert ParseEquals(a).value + map[] == ParseEquals(a).value;
      }
    } else {
      var n := |b| - 1;
      ParseEqualsConcat(a, b[..n]);
      assert (a + b)[..|a + b| - 1] == a + b[..n] && (a + b)[|a + b| - 1] == b[n];
      if ParseEquals(a).Some? && ParseEquals(b).Some? {
        var x, y, k, v := ParseEquals(a).value, ParseEquals(b[..n]).value, Upto(b[n], '='), SecondPiece(b[n], '=');
        assert (x + y)[k := v] == x + y[k := v];
      }
    }
  }

  lemma PairRead(k: string, v: string)
    requires '=' !in k
    ensures '=' in k + "=" + v && Upto(k + "=" + v, '=') == k && SecondPiece(k + "=" + v, '=') == Upto(v, '=')
  {
    PairSplits(k, v, '=');
    assert (k + "=" + v)[|k|] == '=';
  }

  lemma ReadMore(list: seq<string>, e: string)
    requires ParseEquals(list).Some? && '=' in e
    ensures ParseEquals(list + [e]) == Some(ParseEquals(list).value[Upto(e, '=') := SecondPiece(e, '=')])
  {
    assert (list + [e])[..|list|] == list;
  }

  lemma {:induction false} OneColon(host: string, digits: string)
    requires ':' !in host && ':' !in digits
    ensures PieceCount(host + ":" + digits, ':') == 2
  {
    var s := host + ":" + digits;
    if host == [] {
      assert s[0] == ':' && s[1..] == digits;
      NoColon(digits);
    } else {
      assert s[0] == host[0] && s[1..] == host[1..] + ":" + digits;
      OneColon(host[1..], digits);
    }
  }

  lemma {:induction false} NoColon(s: string)
    requires ':' !in s
    ensures PieceCount(s, ':') == 1
  {
    if s == [] {
    } else {
      NoColon(s[1..]);
    }
  }
}
