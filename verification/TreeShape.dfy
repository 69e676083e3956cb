/** Decision trees as values: which trees the builder of DecisionTree.java may grow,
    and how a candle is routed through one. */
module TreeShape {
  import opened CandleOrder
  import opened Common

  /** The score of a list by how many of its labels rise, drop or stay; a split must
      gain more than `minGain` (Double.MIN_VALUE). Logarithms and rounding are left
      open: only zero entropy is given a meaning. */
  datatype Scoring = Scoring(entropyOf: (nat, nat, nat) -> real, minGain: real)

  /** Entropy is zero exactly when all labels are of one class. */
  ghost predicate ZeroIffPure(sc: Scoring) {
    && sc.minGain > 0.0
    && forall r: nat, d: nat, c: nat | r + d + c > 0 ::
         sc.entropyOf(r, d, c) == 0.0 <==> (r == 0 && d == 0) || (r == 0 && c == 0) || (d == 0 && c == 0)
  }

  /** The three classes calcEntropy counts. */
  function Class(tag: int): int {
    if tag == 1 then 1 else if tag == -1 then -1 else 0
  }

  function Count(s: seq<Candle>, cls: int): nat {
    if s == [] then 0 else Count(s[..|s| - 1], cls) + (if Class(s[|s| - 1].tag) == cls then 1 else 0)
  }

  function Entropy(sc: Scoring, s: seq<Candle>): real {
    sc.entropyOf(Count(s, 1), Count(s, -1), Count(s, 0))
  }

  ghost predicate Pure(s: seq<Candle>) {
    forall i, j | 0 <= i < |s| && 0 <= j < |s| :: Class(s[i].tag) == Class(s[j].tag)
  }

  // ----- candidate splits -----

  datatype Split = Split(feature: nat, index: nat, sorted: seq<Candle>) {
    predicate Valid() { 0 < index < |sorted| }
    function Left(): seq<Candle> requires Valid() { sorted[..index] }
    function Right(): seq<Candle> requires Valid() { sorted[index..] }
    function Threshold(): Candle requires Valid() { sorted[index] }
  }

  const BLANK := Candle("", "", 0.0, 0.0, 0.0, 0)

  type Candidate = c: Split | c.Valid() witness Split(0, 1, [BLANK, BLANK])

  function InfoGain(entropy: real, left: nat, leftEntropy: real, right: nat, rightEntropy: real): real
    requires left > 0
  {
    var n := (left + right) as real;
    entropy - (left as real / n) * leftEntropy - (right as real / n) * rightEntropy
  }

  function Gain(sc: Scoring, entropy: real, c: Candidate): real {
    InfoGain(entropy, |c.Left()|, Entropy(sc, c.Left()), |c.Right()|, Entropy(sc, c.Right()))
  }

  /** All places to cut a list sorted by `f`, from left to right. */
  function SplitsOf(f: nat, t: seq<Candle>): seq<Candidate> {
    if t == [] then [] else seq(|t| - 1, j requires 0 <= j < |t| - 1 => Split(f, j + 1, t))
  }

  /** All candidates, feature by feature; each sort starts from the previous order. */
  function Splits(features: seq<nat>, s: seq<Candle>): seq<Candidate> {
    if features == [] then []
    else
      var t := StableSort(s, features[0]);
      SplitsOf(features[0], t) + Splits(features[1..], t)
  }

  function FinalOrder(features: seq<nat>, s: seq<Candle>): seq<Candle> {
    if features == [] then s else FinalOrder(features[1..], StableSort(s, features[0]))
  }

  /** Candidate `k` gains more than the bound, as much as any, and more than those before it. */
  ghost predicate FirstBest(sc: Scoring, e: real, cs: seq<Candidate>, k: int) {
    && 0 <= k < |cs| && Gain(sc, e, cs[k]) > sc.minGain
    && (forall j | 0 <= j < |cs| :: Gain(sc, e, cs[j]) <= Gain(sc, e, cs[k]))
    && forall j | 0 <= j < k :: Gain(sc, e, cs[j]) < Gain(sc, e, cs[k])
  }

  ghost predicate NoneGains(sc: Scoring, e: real, cs: seq<Candidate>) {
    forall j | 0 <= j < |cs| :: Gain(sc, e, cs[j]) <= sc.minGain
  }

  // ----- trees -----

  datatype DTree =
    | Leaf(instances: seq<Candle>)
    | Node(instances: seq<Candle>, feature: nat, threshold: Candle, left: DTree, right: DTree)

  /** `t` is a tree the builder grows from the list `s`. */
  ghost predicate Grown(sc: Scoring, features: seq<nat>, s: seq<Candle>, t: DTree)
    decreases t, 1
  {
    if Entropy(sc, s) == 0.0 || |s| == 1 then t == Leaf(s)
    else
      var cs, e := Splits(features, s), Entropy(sc, s);
      && t.instances == FinalOrder(features, s)
      && match t
         case Leaf(_) => NoneGains(sc, e, cs)
         case Node(_, _, _, _, _) => exists k :: ChosenSplit(sc, features, s, t, k)
  }

  /** Node `t` splits `s` at candidate `k`, the first best one. */
  ghost predicate ChosenSplit(sc: Scoring, features: seq<nat>, s: seq<Candle>, t: DTree, k: int)
    decreases t, 0
  {
    var cs := Splits(features, s);
    && t.Node? && FirstBest(sc, Entropy(sc, s), cs, k)
    && t.feature == cs[k].feature && t.threshold == cs[k].Threshold()
    && Grown(sc, features, cs[k].Left(), t.left) && Grown(sc, features, cs[k].Right(), t.right)
  }

  /** Weighted by their sizes, the parts' entropies are what the whole loses. */
  lemma GainWeighs(e: real, left: nat, leftEntropy: real, right: nat, rightEntropy: real)
    requires left > 0
    ensures var n := (left + right) as real;
            n * InfoGain(e, left, leftEntropy, right, rightEntropy)
            == n * e - left as real * leftEntropy - right as real * rightEntropy
  {
    var n := (left + right) as real;
    assert n * ((left as real / n) * leftEntropy) == left as real * leftEntropy;
    assert n * ((right as real / n) * rightEntropy) == right as real * rightEntropy;
  }

  /** The candles with a rising, a dropping and any other label. */
  ghost function Labels(s: seq<Candle>, cls: int): set<int> {
    set i | 0 <= i < |s| && (if cls == 0 then s[i].tag != 1 && s[i].tag != -1 else s[i].tag == cls)
  }

  lemma {:induction false} CountIsSize(s: seq<Candle>, cls: int)
    requires cls in {-1, 0, 1}
    ensures Count(s, cls) == |Labels(s, cls)|
    decreases |s|
  {
    if s == [] {
      assert Labels(s, cls) == {};
    } else {
      CountIsSize(s[..|s| - 1], cls);
      LabelsMore(s, cls);
      hide Labels;
    }
  }

  lemma LabelsMore(s: seq<Candle>, cls: int)
    requires s != [] && cls in {-1, 0, 1}
    ensures var n := |s| - 1;
            && Labels(s, cls) == Labels(s[..n], cls) + (if Class(s[n].tag) == cls then {n} else {})
            && n !in Labels(s[..n], cls)
  {
    var n := |s| - 1;
    forall i ensures i in Labels(s, cls) <==> i in Labels(s[..n], cls) || (i == n && Class(s[n].tag) == cls) {
      assert 0 <= i < n ==> s[..n][i] == s[i];
    }
  }

  /** The order the scan leaves a list in: sorted by the last feature and, among candles
      alike in that, in the order that the features before it leave. */
  lemma {:induction false} FinalOrderMeans(features: seq<nat>, f: nat, s: seq<Candle>)
    ensures FinalOrder(features + [f], s) == StableSort(FinalOrder(features, s), f)
    ensures var before, after := FinalOrder(features, s), FinalOrder(features + [f], s);
            Sorted(after, f) && forall x :: SameKey(x, after, f) == SameKey(x, before, f)
    decreases |features|
  {
    StableSortSorts(FinalOrder(features, s), f);
    if features == [] {
      assert features + [f] == [f] && [f][1..] == [];
    } else {
      assert (features + [f])[1..] == features[1..] + [f];
      FinalOrderMeans(features[1..], f, StableSort(s, features[0]));
    }
  }

  /** And the cuts looked at for a feature are those of the list in that order. */
  lemma {:induction false} SplitsMean(features: seq<nat>, f: nat, s: seq<Candle>)
    ensures Splits(features + [f], s) == Splits(features, s) + SplitsOf(f, FinalOrder(features + [f], s))
    decreases |features|
  {
    hide StableSort, SplitsOf;
    if features == [] {
      assert features + [f] == [f] && [f][1..] == [];
      var t := StableSort(s, f);
      assert SplitsOf(f, t) + [] == SplitsOf(f, t) == [] + SplitsOf(f, t);
    } else {
      var t := StableSort(s, features[0]);
      assert (features + [f])[1..] == features[1..] + [f];
      SplitsMean(features[1..], f, t);
      var first, mid, last := SplitsOf(features[0], t), Splits(features[1..], t),
                              SplitsOf(f, FinalOrder(features + [f], s));
      assert first + (mid + last) == first + mid + last;
    }
  }

  lemma SplitsShape(features: seq<nat>, s: seq<Candle>)
    ensures forall c | c in Splits(features, s) ::
              c.feature in features && multiset(c.sorted) == multiset(s) && Sorted(c.sorted, c.feature)
    ensures multiset(FinalOrder(features, s)) == multiset(s)
  {
    if features == [] {
    } else {
      StableSortSorts(s, features[0]);
      SplitsShape(features[1..], StableSort(s, features[0]));
    }
  }

  // ----- structure -----

  ghost predicate WellFormed(features: seq<nat>, t: DTree) {
    && t.instances != []
    && (t.Node? ==>
          && t.feature in features
          && multiset(t.instances) == multiset(t.left.instances) + multiset(t.right.instances)
          && (forall c | c in t.left.instances :: Compare(c, t.threshold, t.feature) <= 0)
          && (forall c | c in t.right.instances :: Compare(t.threshold, c, t.feature) <= 0)
          && WellFormed(features, t.left) && WellFormed(features, t.right))
  }

  /** At every split the left candles are not above the threshold in the split's field,
      and the right ones not below. */
  ghost predicate Between(t: DTree) {
    t.Node? ==>
      && (forall c | c in t.left.instances :: !FieldBelow(t.threshold, c, t.feature))
      && (forall c | c in t.right.instances :: !FieldBelow(c, t.threshold, t.feature))
      && Between(t.left) && Between(t.right)
  }

  lemma SplitParts(c: Candidate)
    requires Sorted(c.sorted, c.feature)
    ensures multiset(c.sorted) == multiset(c.Left()) + multiset(c.Right())
    ensures forall x | x in c.Left() :: Compare(x, c.Threshold(), c.feature) <= 0
    ensures forall x | x in c.Right() :: Compare(c.Threshold(), x, c.feature) <= 0
  {
    assert c.sorted == c.Left() + c.Right();
    CompareTotal(c.Threshold(), c.Threshold(), c.feature);
    forall x | x in c.Right() ensures Compare(c.Threshold(), x, c.feature) <= 0 {
      var i :| 0 <= i < |c.Right()| && c.Right()[i] == x;
      assert x == c.sorted[c.index + i];
    }
  }

  lemma SameMembers(a: seq<Candle>, b: seq<Candle>)
    requires multiset(a) == multiset(b)
    ensures |a| == |b| && forall x :: x in a <==> x in b
  {
    assert |multiset(a)| == |multiset(b)|;
    forall x ensures x in a <==> x in b {
      assert x in multiset(a) <==> x in multiset(b);
    }
  }

  /** Every node is non-empty, children share out their parent's candles, and the
      threshold lies between them. */
  lemma {:induction false} GrownWellFormed(sc: Scoring, features: seq<nat>, s: seq<Candle>, t: DTree)
    requires s != [] && Grown(sc, features, s, t)
    ensures WellFormed(features, t) && multiset(t.instances) == multiset(s)
    decreases t
  {
    SplitsShape(features, s);
    SameMembers(s, FinalOrder(features, s));
    if t.Node? {
      var cs, e := Splits(features, s), Entropy(sc, s);
      var k :| ChosenSplit(sc, features, s, t, k);
      assert cs[k] in cs;
      SplitParts(cs[k]);
      GrownWellFormed(sc, features, cs[k].Left(), t.left);
      GrownWellFormed(sc, features, cs[k].Right(), t.right);
      SameMembers(cs[k].Left(), t.left.instances);
      SameMembers(cs[k].Right(), t.right.instances);
    }
  }

  lemma {:induction false} FieldsBetween(features: seq<nat>, t: DTree)
    requires WellFormed(features, t)
    ensures Between(t)
  {
    hide Compare, FieldBelow;
    if t.Node? {
      forall c ensures Compare(c, t.threshold, t.feature) <= 0 <==> !FieldBelow(t.threshold, c, t.feature) {
        CompareMeans(c, t.threshold, t.feature);
      }
      forall c ensures Compare(t.threshold, c, t.feature) <= 0 <==> !FieldBelow(c, t.threshold, t.feature) {
        CompareMeans(t.threshold, c, t.feature);
      }
      FieldsBetween(features, t.left);
      FieldsBetween(features, t.right);
    }
  }

  /** The training list determines the tree. */
  lemma {:induction false} GrownUnique(sc: Scoring, features: seq<nat>, s: seq<Candle>, t: DTree, u: DTree)
    requires Grown(sc, features, s, t) && Grown(sc, features, s, u)
    ensures t == u
    decreases t
  {
    if !(Entropy(sc, s) == 0.0 || |s| == 1) {
      var cs := Splits(features, s);
      if t.Node? {
        var k :| ChosenSplit(sc, features, s, t, k);
        var j :| ChosenSplit(sc, features, s, u, j);
        assert j == k;
        GrownUnique(sc, features, cs[k].Left(), t.left, u.left);
        GrownUnique(sc, features, cs[k].Right(), t.right, u.right);
      }
    }
  }

  lemma {:induction false} CountsAddUp(s: seq<Candle>)
    ensures Count(s, 1) + Count(s, -1) + Count(s, 0) == |s|
    ensures forall cls :: Count(s, cls) == 0 <==> forall i | 0 <= i < |s| :: Class(s[i].tag) != cls
  {
    if s == [] {
    } else {
      var n := |s| - 1;
      CountsAddUp(s[..n]);
      assert forall i | 0 <= i < n :: s[..n][i] == s[i];
      forall cls ensures Count(s, cls) == 0 <==> forall i | 0 <= i < |s| :: Class(s[i].tag) != cls {
        assert Count(s[..n], cls) == 0 <==> forall i | 0 <= i < |s[..n]| :: Class(s[..n][i].tag) != cls;
      }
    }
  }

  lemma EntropyZero(sc: Scoring, s: seq<Candle>)
    requires ZeroIffPure(sc) && s != []
    ensures Entropy(sc, s) == 0.0 <==> Pure(s)
  {
    CountsAddUp(s);
    var r, d, c := Count(s, 1), Count(s, -1), Count(s, 0);
    assert r + d + c > 0;
    var k := Class(s[0].tag);
    if Pure(s) {
      assert forall i | 0 <= i < |s| :: Class(s[i].tag) == k;
    } else {
      var i, j :| 0 <= i < |s| && 0 <= j < |s| && Class(s[i].tag) != Class(s[j].tag);
      assert Count(s, Class(s[i].tag)) > 0 && Count(s, Class(s[j].tag)) > 0;
    }
  }

  // ----- routing -----

  function Predict(t: DTree, c: Candle): int
    requires NoEmptyLeaf(t)
  {
    match t
    case Leaf(s) => s[0].tag
    case Node(_, f, threshold, l, r) => if Compare(c, threshold, f) < 0 then Predict(l, c) else Predict(r, c)
  }

  /** No leaf is empty. */
  predicate NoEmptyLeaf(t: DTree) {
    match t
    case Leaf(s) => s != []
    case Node(_, _, _, l, r) => NoEmptyLeaf(l) && NoEmptyLeaf(r)
  }

  /** findMatch on any tree: an empty leaf has no first candle to take the label from. */
  function Find(t: DTree, c: Candle): (r: Option<int>)
    ensures NoEmptyLeaf(t) ==> r == Some(Predict(t, c))
  {
    match t
    case Leaf(s) => if s == [] then None else Some(s[0].tag)
    case Node(_, f, threshold, l, r) => if Compare(c, threshold, f) < 0 then Find(l, c) else Find(r, c)
  }

  /** The way down: true is left. */
  function Route(t: DTree, c: Candle): seq<bool> {
    match t
    case Leaf(_) => []
    case Node(_, f, threshold, l, r) =>
      if Compare(c, threshold, f) < 0 then [true] + Route(l, c) else [false] + Route(r, c)
  }

  /** The candles of the leaf at the end of a path; none if the path does not fit. */
  function LeafAt(t: DTree, path: seq<bool>): seq<Candle> {
    match t
    case Leaf(s) => if path == [] then s else []
    case Node(_, _, _, l, r) => if path == [] then [] else LeafAt(if path[0] then l else r, path[1..])
  }

  /** Every training candle is routed to each leaf that holds it. */
  ghost predicate RoutesHome(t: DTree) {
    forall path, c | c in LeafAt(t, path) :: Route(t, c) == path
  }

  /** No split leaves a candle on the left whose key equals the threshold's. */
  ghost predicate TieFree(t: DTree) {
    t.Node? ==>
      && (forall c | c in t.left.instances :: Compare(c, t.threshold, t.feature) != 0)
      && TieFree(t.left) && TieFree(t.right)
  }

  /** The way down by the fields: left where the candle's is below the threshold's. */
  ghost predicate Down(t: DTree, c: Candle, path: seq<bool>) {
    match t
    case Leaf(_) => path == []
    case Node(_, f, threshold, l, r) =>
      path != [] && (path[0] <==> FieldBelow(c, threshold, f)) && Down(if path[0] then l else r, c, path[1..])
  }

  /** The answer is the label of the first candle in the leaf that way leads to. */
  ghost predicate Answered(t: DTree, c: Candle, tag: Option<int>) {
    exists path ::
      && Down(t, c, path)
      && tag == if LeafAt(t, path) == [] then None else Some(LeafAt(t, path)[0].tag)
  }

  lemma {:induction false} FindsAnswer(t: DTree, c: Candle)
    ensures Down(t, c, Route(t, c)) && Answered(t, c, Find(t, c))
    ensures var leaf := LeafAt(t, Route(t, c)); Find(t, c) == if leaf == [] then None else Some(leaf[0].tag)
  {
    hide Compare, FieldBelow;
    if t.Node? {
      CompareMeans(c, t.threshold, t.feature);
      var left := Compare(c, t.threshold, t.feature) < 0;
      var child := if left then t.left else t.right;
      FindsAnswer(child, c);
      assert Route(t, c) == [left] + Route(child, c) && Route(t, c)[1..] == Route(child, c);
      assert Find(t, c) == Find(child, c) && LeafAt(t, Route(t, c)) == LeafAt(child, Route(child, c));
    }
  }

  lemma {:induction false} LeafHolding(features: seq<nat>, t: DTree, c: Candle) returns (path: seq<bool>)
    requires WellFormed(features, t) && c in t.instances
    ensures c in LeafAt(t, path)
  {
    path := [];
    if t.Node? {
      assert c in multiset(t.instances);
      if c in t.left.instances {
        var p := LeafHolding(features, t.left, c);
        path := [true] + p;
      } else {
        assert c in multiset(t.right.instances);
        var p := LeafHolding(features, t.right, c);
        path := [false] + p;
      }
    }
  }

  lemma {:induction false} HeldByRoot(features: seq<nat>, t: DTree, path: seq<bool>, c: Candle)
    requires WellFormed(features, t) && c in LeafAt(t, path)
    ensures c in t.instances
    decreases t
  {
    if t.Node? {
      var child := if path[0] then t.left else t.right;
      HeldByRoot(features, child, path[1..], c);
      assert c in multiset(child.instances);
      assert c in multiset(t.instances);
    }
  }

  lemma {:induction false} TieFreeRoutes(features: seq<nat>, t: DTree, path: seq<bool>, c: Candle)
    requires WellFormed(features, t) && TieFree(t) && c in LeafAt(t, path)
    ensures Route(t, c) == path
    decreases t
  {
    if t.Node? {
      var child := if path[0] then t.left else t.right;
      HeldByRoot(features, child, path[1..], c);
      TieFreeRoutes(features, child, path[1..], c);
      CompareTotal(c, t.threshold, t.feature);
      CompareTotal(t.threshold, c, t.feature);
      assert path == [path[0]] + path[1..];
    }
  }

  lemma {:induction false} RoutingFindsTies(features: seq<nat>, t: DTree)
    requires WellFormed(features, t) && RoutesHome(t)
    ensures TieFree(t)
  {
    if t.Node? {
      forall c | c in t.left.instances ensures Compare(c, t.threshold, t.feature) != 0 {
        var p := LeafHolding(features, t.left, c);
        assert ([true] + p)[1..] == p;
        assert c in LeafAt(t, [true] + p);
        assert Route(t, c) == [true] + p;
      }
      forall path, c | c in LeafAt(t.left, path) ensures Route(t.left, c) == path {
        assert ([true] + path)[1..] == path;
        assert c in LeafAt(t, [true] + path);
        assert Route(t, c)[1..] == path;
      }
      forall path, c | c in LeafAt(t.right, path) ensures Route(t.right, c) == path {
        assert ([false] + path)[1..] == path;
        assert c in LeafAt(t, [false] + path);
        assert Route(t, c)[1..] == path;
      }
      RoutingFindsTies(features, t.left);
      RoutingFindsTies(features, t.right);
    }
  }

  /** Training candles find their own leaf exactly when no split cuts between equal keys. */
  lemma RoutesHomeExactly(sc: Scoring, features: seq<nat>, s: seq<Candle>, t: DTree)
    requires s != [] && Grown(sc, features, s, t)
    ensures RoutesHome(t) <==> TieFree(t)
  {
    GrownWellFormed(sc, features, s, t);
    if TieFree(t) {
      forall path, c | c in LeafAt(t, path) ensures Route(t, c) == path {
        TieFreeRoutes(features, t, path, c);
      }
    }
    if RoutesHome(t) {
      RoutingFindsTies(features, t);
    }
  }

  /** No two candles share a key on a used feature. */
  ghost predicate DistinctKeys(features: seq<nat>, s: multiset<Candle>) {
    && (forall c | c in s :: s[c] == 1)
    && forall f, c, d | f in features && c in s && d in s && c != d :: Compare(c, d, f) != 0
  }

  lemma {:induction false} DistinctIsTieFree(sc: Scoring, features: seq<nat>, s: seq<Candle>, t: DTree)
    requires s != [] && Grown(sc, features, s, t) && DistinctKeys(features, multiset(s))
    ensures TieFree(t)
    decreases t
  {
    if t.Node? {
      var cs, e := Splits(features, s), Entropy(sc, s);
      var k :| ChosenSplit(sc, features, s, t, k);
      SplitsShape(features, s);
      assert cs[k] in cs;
      SplitParts(cs[k]);
      var l, r := cs[k].Left(), cs[k].Right();
      GrownWellFormed(sc, features, l, t.left);
      SameMembers(l, t.left.instances);
      forall c | c in t.left.instances ensures Compare(c, t.threshold, t.feature) != 0 {
        assert t.threshold == r[0];
        assert c in multiset(l) && t.threshold in multiset(r);
        assert c in multiset(s) && t.threshold in multiset(s);
        assert multiset(s)[c] == multiset(l)[c] + multiset(r)[c];
      }
      assert multiset(l) <= multiset(s) && multiset(r) <= multiset(s);
      DistinctIsTieFree(sc, features, l, t.left);
      DistinctIsTieFree(sc, features, r, t.right);
    }
  }

  lemma {:induction false} PredictAtRoute(t: DTree, c: Candle)
    requires NoEmptyLeaf(t)
    ensures LeafAt(t, Route(t, c)) != [] && Predict(t, c) == LeafAt(t, Route(t, c))[0].tag
  {
    if t.Node? {
      if Compare(c, t.threshold, t.feature) < 0 {
        PredictAtRoute(t.left, c);
        assert Route(t, c)[1..] == Route(t.left, c);
      } else {
        PredictAtRoute(t.right, c);
        assert Route(t, c)[1..] == Route(t.right, c);
      }
    }
  }

  lemma {:induction false} WellFormedNoEmptyLeaf(features: seq<nat>, t: DTree)
    requires WellFormed(features, t)
    ensures NoEmptyLeaf(t)
  {
    if t.Node? {
      WellFormedNoEmptyLeaf(features, t.left);
      WellFormedNoEmptyLeaf(features, t.right);
    }
  }

  /** So a training candle in a pure leaf is given its own class back. */
  lemma TrainingRecalled(sc: Scoring, features: seq<nat>, s: seq<Candle>, t: DTree, path: seq<bool>, c: Candle)
    requires s != [] && Grown(sc, features, s, t) && TieFree(t)
    requires c in LeafAt(t, path) && Pure(LeafAt(t, path))
    ensures NoEmptyLeaf(t) && Class(Predict(t, c)) == Class(c.tag)
    ensures c.tag in {-1, 0, 1} && LeafAt(t, path)[0].tag in {-1, 0, 1} ==> Predict(t, c) == c.tag
  {
    GrownWellFormed(sc, features, s, t);
    WellFormedNoEmptyLeaf(features, t);
    TieFreeRoutes(features, t, path, c);
    PredictAtRoute(t, c);
    var i :| 0 <= i < |LeafAt(t, path)| && LeafAt(t, path)[i] == c;
    assert Class(LeafAt(t, path)[i].tag) == Class(LeafAt(t, path)[0].tag);
  }

  /** Whatever is predicted is the label of a training candle. */
  lemma {:induction false} PredictsTrainingLabel(features: seq<nat>, t: DTree, c: Candle) returns (d: Candle)
    requires WellFormed(features, t) && NoEmptyLeaf(t)
    ensures d in t.instances && d.tag == Predict(t, c)
  {
    PredictAtRoute(t, c);
    var path := Route(t, c);
    d := LeafAt(t, path)[0];
    HeldByRoot(features, t, path, d);
  }

  /** Without it recall fails: two candles with equal keys are cut apart, both in pure
      leaves, and the first is routed to the second's. */
  lemma TieForgets(sc: Scoring) returns (s: seq<Candle>, t: DTree, c: Candle)
    requires ZeroIffPure(sc) && sc.entropyOf(1, 1, 0) > sc.minGain
    ensures Grown(sc, [1], s, t) && c in s && NoEmptyLeaf(t) && Predict(t, c) != c.tag
  {
    c := BLANK.(tag := 1);
    var d := BLANK.(tag := -1);
    s := [c, d];
    t := Node(s, 1, d, Leaf([c]), Leaf([d]));
    LabelCounts(c, d);
    assert s[1..] == [d] && [d][1..] == [];
    assert StableSort([d], 1) == Insert(d, [], 1) == [d];
    assert StableSort(s, 1) == Insert(c, [d], 1) == s;
    var cut: Candidate := Split(1, 1, s);
    assert SplitsOf(1, s) == [cut];
    assert [1][1..] == [] && Splits([], s) == [] && FinalOrder([], s) == s;
    assert Splits([1], s) == [cut] + [] == [cut] && FinalOrder([1], s) == s;
    assert cut.Left() == [c] && cut.Right() == [d];
    assert Entropy(sc, [c]) == 0.0 && Entropy(sc, [d]) == 0.0 && Entropy(sc, s) != 0.0;
    assert Gain(sc, Entropy(sc, s), cut) == Entropy(sc, s);
    assert Entropy(sc, s) == sc.entropyOf(1, 1, 0);
    assert FirstBest(sc, Entropy(sc, s), [cut], 0);
    assert Grown(sc, [1], [c], Leaf([c])) && Grown(sc, [1], [d], Leaf([d]));
    assert ChosenSplit(sc, [1], s, t, 0);
  }

  lemma LabelCounts(c: Candle, d: Candle)
    requires c.tag == 1 && d.tag == -1
    ensures Count([c], 1) == 1 && Count([c], -1) == 0 && Count([c], 0) == 0
    ensures Count([d], 1) == 0 && Count([d], -1) == 1 && Count([d], 0) == 0
    ensures Count([c, d], 1) == 1 && Count([c, d], -1) == 1 && Count([c, d], 0) == 0
  {
    assert [c, d][..1] == [c] && [c][..0] == [] && [d][..0] == [];
  }
}
