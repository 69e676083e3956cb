/** The forest of Cassandra/src/RandomForest.java: trees grown on random shares of
    the training list, and a vote among them. */
module RandomForest {
  import opened CandleOrder
  import opened Common
  import opened TreeShape
  import opened TreeBuilder

  // ----- voting -----

  /** How many trees vote `tag` for instance `k`. */
  function Votes(preds: seq<seq<int>>, k: nat, tag: int): nat
    requires forall i | 0 <= i < |preds| :: k < |preds[i]|
  {
    if preds == [] then 0
    else
      var n := |preds| - 1;
      Votes(preds[..n], k, tag) + (if preds[n][k] == tag then 1 else 0)
  }

  ghost predicate Plurality(preds: seq<seq<int>>, k: nat, tag: int)
    requires forall i | 0 <= i < |preds| :: k < |preds[i]|
  {
    Votes(preds, k, tag) > 0 && forall other :: Votes(preds, k, other) <= Votes(preds, k, tag)
  }

  lemma {:induction false} VotersExist(preds: seq<seq<int>>, k: nat, tag: int)
    requires forall i | 0 <= i < |preds| :: k < |preds[i]|
    ensures Votes(preds, k, tag) > 0 <==> exists i :: 0 <= i < |preds| && preds[i][k] == tag
  {
    if preds == [] {
    } else {
      var n := |preds| - 1;
      VotersExist(preds[..n], k, tag);
      if preds[n][k] != tag && Votes(preds, k, tag) > 0 {
        var i :| 0 <= i < |preds[..n]| && preds[..n][i][k] == tag;
        assert preds[i][k] == tag;
      }
      if i :| 0 <= i < |preds| && preds[i][k] == tag {
        if i < n {
          assert preds[..n][i][k] == tag;
        }
      }
    }
  }

  lemma {:induction false} TwoTagsShare(preds: seq<seq<int>>, k: nat, a: int, b: int)
    requires forall i | 0 <= i < |preds| :: k < |preds[i]|
    requires a != b
    ensures Votes(preds, k, a) + Votes(preds, k, b) <= |preds|
  {
    if preds == [] {
    } else {
      TwoTagsShare(preds[..|preds| - 1], k, a, b);
    }
  }

  /** A label more than half of the trees vote for is the only one that can win. */
  lemma MajorityWins(preds: seq<seq<int>>, k: nat, tag: int, winner: int)
    requires forall i | 0 <= i < |preds| :: k < |preds[i]|
    requires 2 * Votes(preds, k, tag) > |preds| && Plurality(preds, k, winner)
    ensures winner == tag
  {
    if winner != tag {
      TwoTagsShare(preds, k, tag, winner);
    }
  }

  /** The vote table: the true count of each label voted for, and no other. */
  ghost predicate IsTable(preds: seq<seq<int>>, k: nat, votes: map<int, nat>)
    requires forall i | 0 <= i < |preds| :: k < |preds[i]|
  {
    && (forall tag :: tag in votes <==> Votes(preds, k, tag) > 0)
    && forall tag | tag in votes :: votes[tag] == Votes(preds, k, tag)
  }

  ghost function Total(votes: map<int, nat>): nat {
    if votes == map[] then 0
    else
      EmptyOrNot(votes.Keys);
      var tag :| tag in votes;
      votes[tag] + Total(votes - {tag})
  }

  lemma {:induction false} TotalWithout(votes: map<int, nat>, tag: int)
    requires tag in votes
    ensures Total(votes) == votes[tag] + Total(votes - {tag})
    decreases |votes|
  {
    var other :| other in votes && Total(votes) == votes[other] + Total(votes - {other});
    if other != tag {
      TotalWithout(votes - {other}, tag);
      TotalWithout(votes - {tag}, other);
      assert votes - {other} - {tag} == votes - {tag} - {other};
    }
  }

  /** The entries of the vote table add up to the number of trees. */
  lemma {:induction false} VotesAddUp(preds: seq<seq<int>>, k: nat, votes: map<int, nat>)
    requires forall i | 0 <= i < |preds| :: k < |preds[i]|
    requires IsTable(preds, k, votes)
    ensures Total(votes) == |preds|
  {
    if preds == [] {
      assert votes == map[] by {
        forall tag ensures tag !in votes {
          assert Votes(preds, k, tag) == 0;
        }
      }
    } else {
      var n := |preds| - 1;
      var tag := preds[n][k];
      assert tag in votes && votes[tag] == Votes(preds[..n], k, tag) + 1;
      var before := if votes[tag] == 1 then votes - {tag} else votes[tag := votes[tag] - 1];
      assert IsTable(preds[..n], k, before);
      VotesAddUp(preds[..n], k, before);
      TotalWithout(votes, tag);
      if votes[tag] > 1 {
        TotalWithout(before, tag);
        assert before - {tag} == votes - {tag};
      }
    }
  }

  /** The loop that counts the labels for one instance. */
  method CountLabelVotes(preds: seq<seq<int>>, k: nat) returns (votes: map<int, nat>)
    requires forall i | 0 <= i < |preds| :: k < |preds[i]|
    ensures IsTable(preds, k, votes) && Total(votes) == |preds|
  {
    votes := map[];
    for i := 0 to |preds|
      invariant IsTable(preds[..i], k, votes)
    {
      assert preds[..i + 1][..i] == preds[..i];
      var tag := preds[i][k];
      votes := votes[tag := if tag in votes then votes[tag] + 1 else 1];
    }
    assert preds[..|preds|] == preds;
    VotesAddUp(preds, k, votes);
  }

  lemma EmptyOrNot(s: set<int>)
    ensures s == {} || exists tag :: tag in s
  {
    if forall tag :: tag !in s {
      assert s == {};
    }
  }

  /** The scan for the first entry of maximal count, in whatever order the map
      yields its entries. */
  method MaxVote(votes: map<int, nat>) returns (best: int)
    requires votes != map[]
    ensures best in votes && forall tag | tag in votes :: votes[tag] <= votes[best]
  {
    var rest := votes.Keys;
    var found := false;
    best := 0;
    while rest != {}
      invariant rest <= votes.Keys
      invariant rest == votes.Keys || found
      invariant found ==> best in votes
      invariant found ==> forall tag | tag in votes && tag !in rest :: votes[tag] <= votes[best]
      decreases rest
    {
      EmptyOrNot(rest);
      var e :| e in rest;
      rest := rest - {e};
      if !found || votes[e] > votes[best] {
        found, best := true, e;
      }
    }
  }

  /** countVotes; no trees means no first list to look at, an error. */
  method CountVotes(preds: seq<seq<int>>, ghost instances: nat) returns (tags: seq<int>, ok: bool)
    requires forall i | 0 <= i < |preds| :: |preds[i]| == instances
    ensures ok <==> preds != []
    ensures ok ==> |tags| == instances && forall k | 0 <= k < instances :: Plurality(preds, k, tags[k])
  {
    tags := [];
    if preds == [] {
      return tags, false;
    }
    for k := 0 to |preds[0]|
      invariant |tags| == k
      invariant forall j | 0 <= j < k :: Plurality(preds, j, tags[j])
    {
      var votes := CountLabelVotes(preds, k);
      VotersExist(preds, k, preds[0][k]);
      var best := MaxVote(votes);
      forall other ensures Votes(preds, k, other) <= Votes(preds, k, best) {
        assert other in votes <==> Votes(preds, k, other) > 0;
      }
      tags := tags + [best];
    }
    return tags, true;
  }

  // ----- the forest -----

  /** Collections.shuffle: swaps downwards with arbitrary partners. */
  method Shuffle<T>(s: seq<T>) returns (p: seq<T>)
    ensures |p| == |s| && multiset(p) == multiset(s)
  {
    p := s;
    var i := |s|;
    while i > 1
      invariant 0 <= i <= |s| == |p| && multiset(p) == multiset(s)
    {
      var j :| 0 <= j < i;
      p := p[i - 1 := p[j]][j := p[i - 1]];
      i := i - 1;
    }
  }

  /** A tree of the forest was grown from two thirds of the candles on two features. */
  ghost predicate GrownFromShare(sc: Scoring, all: seq<Candle>, t: DTree) {
    exists features: seq<nat>, share: seq<Candle> ::
      && |features| == 2 && multiset(features) <= multiset{0, 1, 2, 3}
      && |share| == 2 * |all| / 3 && multiset(share) <= multiset(all)
      && Grown(sc, features, share, t)
  }

  lemma ShareOfShuffled(sc: Scoring, shuffled: seq<Candle>, all: seq<Candle>, t: DTree)
    requires GrownFromShare(sc, shuffled, t)
    requires |shuffled| == |all| && multiset(shuffled) == multiset(all)
    ensures GrownFromShare(sc, all, t)
  {}

  /** A tree grown from a list labels every candle, or, from an empty list, none. */
  lemma FindsUnlessEmpty(sc: Scoring, features: seq<nat>, share: seq<Candle>, t: DTree)
    requires Grown(sc, features, share, t)
    ensures if share == [] then t == Leaf([]) else NoEmptyLeaf(t) && forall c :: Find(t, c) == Some(Predict(t, c))
  {
    if share == [] {
      EmptyOrder(features);
    } else {
      GrownWellFormed(sc, features, share, t);
      WellFormedNoEmptyLeaf(features, t);
    }
  }

  lemma {:induction false} EmptyOrder(features: seq<nat>)
    ensures FinalOrder(features, []) == [] && Splits(features, []) == []
  {
    if features == [] {
    } else {
      EmptyOrder(features[1..]);
      assert StableSort([], features[0]) == [];
    }
  }

  lemma ShareGrown(sc: Scoring, shuffled: seq<Candle>, totalFeatures: seq<nat>, t: DTree)
    requires |totalFeatures| == 4 && multiset(totalFeatures) == multiset{0, 1, 2, 3}
    requires Grown(sc, totalFeatures[..2], shuffled[..2 * |shuffled| / 3], t)
    ensures GrownFromShare(sc, shuffled, t)
  {
    hide Grown;
    PrefixPart(shuffled, 2 * |shuffled| / 3);
    PrefixPart(totalFeatures, 2);
  }

  lemma PrefixPart<T>(s: seq<T>, n: nat)
    requires n <= |s|
    ensures multiset(s[..n]) <= multiset(s)
  {
    assert s == s[..n] + s[n..];
  }

  /** Trying the tree on the rest fails exactly when there is one candle in all. */
  lemma ShareTried(sc: Scoring, features: seq<nat>, shuffled: seq<Candle>, t: DTree)
    requires Grown(sc, features, shuffled[..2 * |shuffled| / 3], t)
    ensures var rest := shuffled[2 * |shuffled| / 3..];
            |shuffled| != 1 <==> forall i | 0 <= i < |rest| :: Find(t, rest[i]).Some?
  {
    var cut := 2 * |shuffled| / 3;
    FindsUnlessEmpty(sc, features, shuffled[..cut], t);
    hide Grown;
    if |shuffled| == 1 {
      assert Find(t, shuffled[cut..][0]).None?;
    }
  }

  /** One round of buildForest, behind the two shuffles: a tree from the first two
      thirds, tried on the rest. It fails, for one candle, on trying the empty tree. */
  method GrowOne(sc: Scoring, shuffled: seq<Candle>, totalFeatures: seq<nat>)
    returns (dt: DecisionTree, ok: bool, ghost model: DTree)
    requires |totalFeatures| == 4 && multiset(totalFeatures) == multiset{0, 1, 2, 3}
    ensures fresh(dt.root) && fresh(dt.root.Repr) && dt.Trained() && dt.root.Tree() == model
    ensures GrownFromShare(sc, shuffled, model)
    ensures ok <==> |shuffled| != 1
  {
    hide Grown, GrownFromShare, Find;
    var cut := 2 * |shuffled| / 3;
    var trainInstances, testInstances := shuffled[..cut], shuffled[cut..];
    var usedFeatures := totalFeatures[..2];
    dt := new DecisionTree(trainInstances, usedFeatures);
    dt.Train(sc);
    model := dt.root.Tree();
    ShareGrown(sc, shuffled, totalFeatures, model);
    ShareTried(sc, usedFeatures, shuffled, model);
    var predictedLabels;
    predictedLabels, ok := dt.Classify(testInstances);
  }

  class Forest {
    var trees: seq<DecisionTree>
    ghost var models: seq<DTree>
    ghost var owned: set<object>

    constructor ()
      ensures trees == [] && models == [] && Valid()
    {
      trees, models, owned := [], [], {};
    }

    ghost predicate Valid()
      reads this, owned
    {
      && this !in owned && |models| == |trees|
      && forall i | 0 <= i < |trees| :: Holds(trees[i], models[i])
    }

    /** A trained tree whose nodes belong to this forest, seen as a value. */
    ghost predicate Holds(dt: DecisionTree, model: DTree)
      reads this, owned
    {
      dt.root in owned && dt.root.Repr <= owned && dt.Trained() && dt.root.Tree() == model
    }

    method AddTree(dt: DecisionTree, ghost model: DTree)
      requires Valid() && dt.Trained() && dt.root.Tree() == model
      requires this !in dt.root.Repr
      modifies this
      ensures Valid() && trees == old(trees) + [dt] && models == old(models) + [model]
    {
      assert forall i | 0 <= i < |trees| :: Holds(trees[i], models[i]);
      trees, models := trees + [dt], models + [model];
      owned := owned + {dt.root} + dt.root.Repr;
    }

    /** buildForest; fails for a single candle, whose trees would have nothing to grow from. */
    method BuildForest(sc: Scoring, n: nat, instances: seq<Candle>) returns (ok: bool)
      requires Valid() && trees == []
      modifies this
      ensures Valid() && (ok <==> n == 0 || |instances| != 1)
      ensures ok ==> |trees| == n && forall i | 0 <= i < n :: GrownFromShare(sc, instances, models[i])
    {
      hide GrownFromShare;
      var shuffled := instances;
      var totalFeatures: seq<nat> := [0, 1, 2, 3];
      for i := 0 to n
        invariant Valid() && |trees| == i && (i > 0 ==> |instances| != 1)
        invariant |shuffled| == |instances| && multiset(shuffled) == multiset(instances)
        invariant multiset(totalFeatures) == multiset{0, 1, 2, 3} && |totalFeatures| == 4
        invariant forall j | 0 <= j < i :: GrownFromShare(sc, instances, models[j])
      {
        shuffled := Shuffle(shuffled);
        totalFeatures := Shuffle(totalFeatures);
        var dt, tried, model := GrowOne(sc, shuffled, totalFeatures);
        if !tried {
          return false;
        }
        ShareOfShuffled(sc, shuffled, instances, model);
        AddTree(dt, model);
      }
      ok := true;
    }

    /** classify; fails without trees, or if some tree has no label for some candle. */
    method Classify(testingInstances: seq<Candle>) returns (tags: seq<int>, ok: bool)
      requires Valid()
      ensures ok <==> trees != [] && AllFind(models, testingInstances)
      ensures ok ==>
                && |tags| == |testingInstances|
                && forall k | 0 <= k < |tags| :: ForestVote(models, testingInstances[k], tags[k])
    {
      var treesPredictedLabels: seq<seq<int>> := [];
      for i := 0 to |trees|
        invariant |treesPredictedLabels| == i
        invariant forall j | 0 <= j < i :: Predictions(models[j], testingInstances, treesPredictedLabels[j])
      {
        assert Holds(trees[i], models[i]);
        var labelsPerTree, found := trees[i].Classify(testingInstances);
        if !found {
          assert exists k :: 0 <= k < |testingInstances| && Find(models[i], testingInstances[k]).None?;
          return [], false;
        }
        treesPredictedLabels := treesPredictedLabels + [labelsPerTree];
      }
      forall i, k | 0 <= i < |models| && 0 <= k < |testingInstances|
        ensures Find(models[i], testingInstances[k]).Some?
      {
        assert Predictions(models[i], testingInstances, treesPredictedLabels[i]);
      }
      tags, ok := CountVotes(treesPredictedLabels, |testingInstances|);
      if ok {
        forall k | 0 <= k < |tags| ensures ForestVote(models, testingInstances[k], tags[k]) {
          VotesAgree(models, treesPredictedLabels, testingInstances, k);
        }
      }
    }
  }

  ghost predicate AllFind(models: seq<DTree>, tests: seq<Candle>) {
    forall i, k | 0 <= i < |models| && 0 <= k < |tests| :: Find(models[i], tests[k]).Some?
  }

  ghost predicate Predictions(t: DTree, tests: seq<Candle>, tags: seq<int>) {
    |tags| == |tests| && forall k | 0 <= k < |tests| :: Find(t, tests[k]) == Some(tags[k])
  }

  /** How many trees predict `tag` for `c`. */
  ghost function TreeVotes(models: seq<DTree>, c: Candle, tag: int): nat {
    if models == [] then 0
    else
      var n := |models| - 1;
      TreeVotes(models[..n], c, tag) + (if Find(models[n], c) == Some(tag) then 1 else 0)
  }

  /** `tag` has as many trees behind it as any label, and at least one. */
  ghost predicate ForestVote(models: seq<DTree>, c: Candle, tag: int) {
    TreeVotes(models, c, tag) > 0 && forall other :: TreeVotes(models, c, other) <= TreeVotes(models, c, tag)
  }

  lemma {:induction false} VotesAgree(models: seq<DTree>, preds: seq<seq<int>>, tests: seq<Candle>, k: nat)
    requires |models| == |preds| && k < |tests|
    requires forall j | 0 <= j < |preds| :: Predictions(models[j], tests, preds[j])
    ensures forall j | 0 <= j < |preds| :: |preds[j]| == |tests|
    ensures forall tag :: TreeVotes(models, tests[k], tag) == Votes(preds, k, tag)
  {
    forall j | 0 <= j < |preds| ensures |preds[j]| == |tests| {
      assert Predictions(models[j], tests, preds[j]);
    }
    if models != [] {
      VotesAgree(models[..|models| - 1], preds[..|preds| - 1], tests, k);
    }
  }

  lemma {:induction false} VoterPredicts(models: seq<DTree>, c: Candle, tag: int) returns (i: nat)
    requires TreeVotes(models, c, tag) > 0
    ensures i < |models| && Find(models[i], c) == Some(tag)
  {
    var n := |models| - 1;
    if Find(models[n], c) == Some(tag) {
      i := n;
    } else {
      i := VoterPredicts(models[..n], c, tag);
    }
  }

  /** Whatever a forest answers is the label of a candle some tree that voted for it was
      grown from. */
  lemma AnswersTrainingLabel(sc: Scoring, all: seq<Candle>, models: seq<DTree>, c: Candle, tag: int)
    returns (i: nat, d: Candle)
    requires ForestVote(models, c, tag)
    requires forall i | 0 <= i < |models| :: GrownFromShare(sc, all, models[i])
    ensures i < |models| && Find(models[i], c) == Some(tag)
    ensures d in models[i].instances && d in all && d.tag == tag
    ensures |models[i].instances| == 2 * |all| / 3 && multiset(models[i].instances) <= multiset(all)
  {
    i := VoterPredicts(models, c, tag);
    var features: seq<nat>, share: seq<Candle> :|
      && |features| == 2 && multiset(features) <= multiset{0, 1, 2, 3}
      && |share| == 2 * |all| / 3 && multiset(share) <= multiset(all)
      && Grown(sc, features, share, models[i]);
    FindsUnlessEmpty(sc, features, share, models[i]);
    GrownWellFormed(sc, features, share, models[i]);
    d := PredictsTrainingLabel(features, models[i], c);
    SameMembers(models[i].instances, share);
    assert d in multiset(share);
    assert d in multiset(all);
  }

  lemma {:induction false} TwoTagsShareTrees(models: seq<DTree>, c: Candle, a: int, b: int)
    requires a != b
    ensures TreeVotes(models, c, a) + TreeVotes(models, c, b) <= |models|
  {
    if models == [] {
    } else {
      TwoTagsShareTrees(models[..|models| - 1], c, a, b);
    }
  }

  /** A label more than half of the trees predict is the only one a forest can answer, and
      it can answer it. */
  lemma ForestMajorityWins(models: seq<DTree>, c: Candle, tag: int, answer: int)
    requires 2 * TreeVotes(models, c, tag) > |models|
    ensures ForestVote(models, c, answer) <==> answer == tag
  {
    forall other | other != tag ensures TreeVotes(models, c, other) < TreeVotes(models, c, tag) {
      TwoTagsShareTrees(models, c, tag, other);
    }
  }

  /** A forest grown from two candles or more has a label for everything. */
  lemma GrownForestAnswers(sc: Scoring, all: seq<Candle>, models: seq<DTree>, tests: seq<Candle>)
    requires |all| >= 2 && forall i | 0 <= i < |models| :: GrownFromShare(sc, all, models[i])
    ensures AllFind(models, tests)
  {
    hide Grown, Find, NoEmptyLeaf, Predict;
    forall i, k | 0 <= i < |models| && 0 <= k < |tests| ensures Find(models[i], tests[k]).Some? {
      var features: seq<nat>, share: seq<Candle> :|
        && |features| == 2 && multiset(features) <= multiset{0, 1, 2, 3}
        && |share| == 2 * |all| / 3 && multiset(share) <= multiset(all)
        && Grown(sc, features, share, models[i]);
      assert |share| > 0;
      FindsUnlessEmpty(sc, features, share, models[i]);
    }
  }
}
