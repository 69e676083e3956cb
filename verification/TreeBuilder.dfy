/** The tree builder and classifier of Cassandra/src/DecisionTree.java: nodes whose
    lists are sorted in place and whose fields are set as the tree grows. */
module TreeBuilder {
  import opened CandleOrder
  import opened Common
  import opened TreeShape

  /** calcEntropy's counting loop. */
  method CountLabels(s: seq<Candle>) returns (rise: nat, drop: nat, constant: nat)
    ensures rise == Count(s, 1) && drop == Count(s, -1) && constant == Count(s, 0)
    ensures rise == |Labels(s, 1)| && drop == |Labels(s, -1)| && constant == |Labels(s, 0)|
  {
    rise, drop, constant := 0, 0, 0;
    for i := 0 to |s|
      invariant rise == Count(s[..i], 1) && drop == Count(s[..i], -1) && constant == Count(s[..i], 0)
    {
      assert s[..i + 1][..i] == s[..i];
      if s[i].tag == 1 {
        rise := rise + 1;
      } else if s[i].tag == -1 {
        drop := drop + 1;
      } else {
        constant := constant + 1;
      }
    }
    assert s[..|s|] == s;
    CountIsSize(s, 1);
    CountIsSize(s, -1);
    CountIsSize(s, 0);
  }

  method CalcEntropy(sc: Scoring, s: seq<Candle>) returns (e: real)
    ensures e == Entropy(sc, s)
  {
    var rise, drop, constant := CountLabels(s);
    e := sc.entropyOf(rise, drop, constant);
  }

  /** The best split so far: bestAttr is -1 until some candidate beats the bound. */
  datatype Best = Best(attr: int, gain: real, threshold: Candle, left: seq<Candle>, right: seq<Candle>)

  ghost predicate BestOf(sc: Scoring, e: real, seen: seq<Candidate>, b: Best) {
    if b.attr == -1 then b.gain == sc.minGain && NoneGains(sc, e, seen)
    else exists k ::
      && FirstBest(sc, e, seen, k) && b.gain == Gain(sc, e, seen[k])
      && b.attr == seen[k].feature && b.threshold == seen[k].Threshold()
      && b.left == seen[k].Left() && b.right == seen[k].Right()
  }

  function NoSplitYet(sc: Scoring, e: real): (b: Best)
    ensures BestOf(sc, e, [], b)
  {
    Best(-1, sc.minGain, BLANK, [], [])
  }

  lemma BestStays(sc: Scoring, e: real, seen: seq<Candidate>, b: Best, c: Candidate)
    requires BestOf(sc, e, seen, b) && Gain(sc, e, c) <= b.gain
    ensures BestOf(sc, e, seen + [c], b)
  {
    if b.attr != -1 {
      var k :| FirstBest(sc, e, seen, k) && b.gain == Gain(sc, e, seen[k])
            && b.attr == seen[k].feature && b.threshold == seen[k].Threshold()
            && b.left == seen[k].Left() && b.right == seen[k].Right();
      assert FirstBest(sc, e, seen + [c], k);
    }
  }

  lemma BestMoves(sc: Scoring, e: real, seen: seq<Candidate>, b: Best, c: Candidate)
    requires BestOf(sc, e, seen, b) && Gain(sc, e, c) > b.gain
    ensures BestOf(sc, e, seen + [c], Best(c.feature, Gain(sc, e, c), c.Threshold(), c.Left(), c.Right()))
  {
    assert FirstBest(sc, e, seen + [c], |seen|);
    assert (seen + [c])[|seen|] == c;
  }

  /** What a chosen best split is, and that its parts are shorter than the list. */
  lemma BestChosen(sc: Scoring, features: seq<nat>, s: seq<Candle>, b: Best) returns (k: nat)
    requires BestOf(sc, Entropy(sc, s), Splits(features, s), b) && b.attr != -1
    ensures var cs := Splits(features, s);
            && FirstBest(sc, Entropy(sc, s), cs, k)
            && b.attr == cs[k].feature && b.threshold == cs[k].Threshold()
            && b.left == cs[k].Left() && b.right == cs[k].Right()
    ensures 0 < |b.left| < |s| && 0 < |b.right| < |s|
  {
    var cs, e := Splits(features, s), Entropy(sc, s);
    SplitsShape(features, s);
    k :| FirstBest(sc, e, cs, k) && b.gain == Gain(sc, e, cs[k])
      && b.attr == cs[k].feature && b.threshold == cs[k].Threshold()
      && b.left == cs[k].Left() && b.right == cs[k].Right();
    assert cs[k] in cs;
    SameMembers(cs[k].sorted, s);
  }

  /** The inner loop of the scan: every place to cut one sorted list. */
  method ScanThresholds(sc: Scoring, e: real, f: nat, t: seq<Candle>, soFar: Best, ghost seen: seq<Candidate>)
    returns (b: Best)
    requires BestOf(sc, e, seen, soFar)
    ensures BestOf(sc, e, seen + SplitsOf(f, t), b)
  {
    hide BestOf, InfoGain, Entropy;
    b := soFar;
    ghost var cuts := SplitsOf(f, t);
    assert seen + cuts[..0] == seen;
    var thresholdIdx := 1;
    while thresholdIdx < |t|
      invariant 1 <= thresholdIdx && thresholdIdx - 1 <= |cuts|
      invariant BestOf(sc, e, seen + cuts[..thresholdIdx - 1], b)
    {
      var left, right := t[..thresholdIdx], t[thresholdIdx..];
      ghost var c: Candidate := Split(f, thresholdIdx, t);
      assert seen + cuts[..thresholdIdx] == seen + cuts[..thresholdIdx - 1] + [c];
      var leftEntropy := CalcEntropy(sc, left);
      var rightEntropy := CalcEntropy(sc, right);
      var infoGain := InfoGain(e, |left|, leftEntropy, |right|, rightEntropy);
      assert infoGain == Gain(sc, e, c);
      if infoGain > b.gain {
        BestMoves(sc, e, seen + cuts[..thresholdIdx - 1], b, c);
        b := Best(f, infoGain, t[thresholdIdx], left, right);
      } else {
        BestStays(sc, e, seen + cuts[..thresholdIdx - 1], b, c);
      }
      thresholdIdx := thresholdIdx + 1;
    }
    assert cuts[..thresholdIdx - 1] == cuts;
  }

  class DTNode {
    var instances: seq<Candle>
    var entropy: real
    var left: DTNode?
    var right: DTNode?
    var testCond: nat
    var thresholdIns: Candle
    ghost var Repr: set<object>

    constructor ()
      ensures Repr == {this} && left == null && right == null
    {
      instances, entropy, left, right, testCond, thresholdIns := [], 0.0, null, null, 0, BLANK;
      Repr := {this};
    }

    ghost predicate Valid()
      reads this, Repr
    {
      && this in Repr
      && (left == null <==> right == null)
      && (left != null ==>
            && left in Repr && right in Repr
            && left.Repr <= Repr && right.Repr <= Repr && this !in left.Repr && this !in right.Repr
            && left.Repr !! right.Repr
            && left.Valid() && right.Valid())
    }

    ghost function Tree(): DTree
      requires Valid()
      reads this, Repr
    {
      if left == null then Leaf(instances)
      else Node(instances, testCond, thresholdIns, left.Tree(), right.Tree())
    }

    /** Only nodes of entropy zero are left unsplit for that reason; `findMatch` relies on it. */
    ghost predicate EntropyKept()
      requires Valid()
      reads this, Repr
    {
      left != null ==> entropy != 0.0 && left.EntropyKept() && right.EntropyKept()
    }

    /** The loop over the features, sorting as it goes. */
    method ScanSplits(sc: Scoring, features: seq<nat>) returns (b: Best)
      modifies this`instances
      ensures BestOf(sc, entropy, Splits(features, old(instances)), b)
      ensures instances == FinalOrder(features, old(instances))
    {
      hide BestOf, StableSort, SplitsOf;
      b := NoSplitYet(sc, entropy);
      ghost var seen: seq<Candidate> := [];
      ghost var all := Splits(features, instances);
      ghost var last := FinalOrder(features, instances);
      assert features[0..] == features;
      for i := 0 to |features|
        invariant all == seen + Splits(features[i..], instances)
        invariant last == FinalOrder(features[i..], instances)
        invariant BestOf(sc, entropy, seen, b)
      {
        var f := features[i];
        assert features[i..][0] == f && features[i..][1..] == features[i + 1..];
        instances := StableSort(instances, f);
        b := ScanThresholds(sc, entropy, f, instances, b, seen);
        assert seen + (SplitsOf(f, instances) + Splits(features[i + 1..], instances))
            == seen + SplitsOf(f, instances) + Splits(features[i + 1..], instances);
        seen := seen + SplitsOf(f, instances);
      }
      assert seen + [] == seen;
    }

    /** buildDTree on a node without children. */
    method BuildDTree(sc: Scoring, features: seq<nat>)
      requires Valid() && Repr == {this} && left == null
      modifies this
      ensures Valid() && fresh(Repr - {this}) && EntropyKept()
      ensures Grown(sc, features, old(instances), Tree())
      ensures old(instances) != [] ==> Between(Tree())
      decreases |instances|, 1
    {
      hide Between;
      ghost var s := instances;
      entropy := CalcEntropy(sc, instances);
      if entropy != 0.0 && |instances| != 1 {
        var b := ScanSplits(sc, features);
        if b.attr != -1 {
          ghost var k := BestChosen(sc, features, s, b);
          SplitNode(sc, features, s, b);
        }
      }
      if s != [] {
        GrownWellFormed(sc, features, s, Tree());
        FieldsBetween(features, Tree());
      }
    }

    /** The part of buildDTree behind the scan, once a best split is known. */
    method SplitNode(sc: Scoring, features: seq<nat>, ghost s: seq<Candle>, b: Best)
      requires Repr == {this} && entropy == Entropy(sc, s) != 0.0 && |s| > 1
      requires instances == FinalOrder(features, s)
      requires b.attr != -1 && BestOf(sc, entropy, Splits(features, s), b)
      modifies this
      ensures Valid() && fresh(Repr - {this}) && EntropyKept()
      ensures Grown(sc, features, s, Tree())
      decreases |s|, 0
    {
      hide Splits, FinalOrder, Entropy, BestOf, FirstBest, Gain;
      ghost var k := BestChosen(sc, features, s, b);
      var leftBranch := GrowBranch(sc, features, b.left);
      var rightBranch := GrowBranch(sc, features, b.right);
      SetChildren(b.attr, b.threshold, leftBranch, rightBranch);
      assert ChosenSplit(sc, features, s, Tree(), k);
    }

    /** A child node with its share of the instances, grown in turn. */
    static method GrowBranch(sc: Scoring, features: seq<nat>, share: seq<Candle>) returns (branch: DTNode)
      ensures branch.Valid() && fresh(branch.Repr) && branch.EntropyKept()
      ensures Grown(sc, features, share, branch.Tree())
      decreases |share|, 2
    {
      branch := new DTNode();
      branch.instances := share;
      branch.BuildDTree(sc, features);
    }

    /** setTestCondition and the two branches. */
    method SetChildren(c: nat, thresholdInstance: Candle, l: DTNode, r: DTNode)
      requires this !in l.Repr && this !in r.Repr && l.Repr !! r.Repr
      requires l.Valid() && r.Valid() && l.EntropyKept() && r.EntropyKept() && entropy != 0.0
      modifies this`testCond, this`thresholdIns, this`left, this`right, this`Repr
      ensures Valid() && EntropyKept() && Repr == {this} + l.Repr + r.Repr
      ensures Tree() == Node(instances, c, thresholdInstance, old(l.Tree()), old(r.Tree()))
    {
      testCond, thresholdIns := c, thresholdInstance;
      left, right := l, r;
      Repr := {this} + l.Repr + r.Repr;
    }

    method InLeftBranch(cs: Candle) returns (b: bool)
      ensures b <==> Compare(cs, thresholdIns, testCond) < 0
      ensures b <==> FieldBelow(cs, thresholdIns, testCond)
    {
      CompareMeans(cs, thresholdIns, testCond);
      b := Compare(cs, thresholdIns, testCond) < 0;
    }

    /** findMatch; None where the original looks for the first of no candles. */
    method FindMatch(cs: Candle) returns (tag: Option<int>)
      requires Valid() && EntropyKept()
      ensures tag == Find(Tree(), cs) && Answered(Tree(), cs, tag)
      decreases Repr
    {
      hide Answered;
      FindsAnswer(Tree(), cs);
      if entropy == 0.0 || (left == null && right == null) {
        if instances == [] {
          return None;
        }
        tag := Some(instances[0].tag);
      } else {
        var b := InLeftBranch(cs);
        if b {
          tag := left.FindMatch(cs);
        } else {
          tag := right.FindMatch(cs);
        }
      }
    }
  }

  class DecisionTree {
    const root: DTNode
    const featureIdx: seq<nat>

    constructor (allTrainingInstances: seq<Candle>, featureIdx: seq<nat>)
      ensures this.featureIdx == featureIdx && fresh(root) && root.Repr == {root} && root.left == null
      ensures root.Valid() && root.instances == allTrainingInstances
    {
      this.featureIdx := featureIdx;
      var r := new DTNode();
      r.instances := allTrainingInstances;
      root := r;
    }

    ghost predicate Trained()
      reads root, root.Repr
    {
      root.Valid() && root.EntropyKept()
    }

    method Train(sc: Scoring)
      requires root.Valid() && root.Repr == {root} && root.left == null
      modifies root
      ensures Trained() && fresh(root.Repr - {root})
      ensures Grown(sc, featureIdx, old(root.instances), root.Tree())
    {
      root.BuildDTree(sc, featureIdx);
    }

    method Classify(testingInstances: seq<Candle>) returns (tags: seq<int>, ok: bool)
      requires Trained()
      ensures ok <==> forall i | 0 <= i < |testingInstances| :: Find(root.Tree(), testingInstances[i]).Some?
      ensures ok ==> |tags| == |testingInstances|
      ensures ok ==> forall i | 0 <= i < |tags| :: Find(root.Tree(), testingInstances[i]) == Some(tags[i])
    {
      tags := [];
      for i := 0 to |testingInstances|
        invariant |tags| == i
        invariant forall j | 0 <= j < i :: Find(root.Tree(), testingInstances[j]) == Some(tags[j])
      {
        var tag := root.FindMatch(testingInstances[i]);
        if tag.None? {
          return [], false;
        }
        tags := tags + [tag.value];
      }
      ok := true;
    }
  }
}
