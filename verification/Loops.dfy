/** What keeps a match from ever ending: a repeat whose body can match nothing, and
    a rule that can start with itself. */
module Loops {
  import opened Matchers
  import opened Derivations

  /** `m` can match no token at all. */
  ghost predicate Vanishes(g: Grammar, m: Matcher) {
    exists t :: Derives(g, m, t) && Yield(t) == []
  }

  /** The rules that `m` may start with, before any token is matched. */
  ghost function Heads(g: Grammar, m: Matcher): set<string> {
    match m
    case Term(_) => {}
    case TermType(_, _) => {}
    case Bare(_) => {}
    case Choice(alts) => HeadsAny(g, alts)
    case OneOrNone(body) => Heads(g, body)
    case Repeat(body) => Heads(g, body)
    case RuleReference(r) => {r}
    case RuleSeries(ps) => HeadsSeries(g, ps)
    case Capture(_, _, body) => Heads(g, body)
  }

  ghost function HeadsAny(g: Grammar, ms: seq<Matcher>): set<string> {
    if ms == [] then {} else Heads(g, ms[0]) + HeadsAny(g, ms[1..])
  }

  ghost function HeadsSeries(g: Grammar, ms: seq<Matcher>): set<string> {
    if ms == [] then {}
    else Heads(g, ms[0]) + (if Vanishes(g, ms[0]) then HeadsSeries(g, ms[1..]) else {})
  }

  ghost predicate StartsWith(g: Grammar, r: string, q: string) {
    r in g.rules && q in Heads(g, g.rules[r])
  }

  ghost predicate Chain(g: Grammar, ns: seq<string>) {
    |ns| >= 2 && forall i | 0 <= i < |ns| - 1 :: StartsWith(g, ns[i], ns[i + 1])
  }

  /** By rules that start with one another, `r` leads to `q`. */
  ghost predicate StartsDeep(g: Grammar, r: string, q: string) {
    exists ns :: Chain(g, ns) && ns[0] == r && ns[|ns| - 1] == q
  }

  /** The matchers no call of which returns. */
  ghost predicate Endless(g: Grammar, m: Matcher) {
    || (m.Repeat? && Vanishes(g, m.body))
    || (m.RuleReference? && StartsDeep(g, m.rule, m.rule))
  }

  // ----- a repeat over nothing -----

  /** Every round of such a repeat has a context to go on with. */
  lemma {:induction false} RoundsGoOn(g: Grammar, n: nat, m: Matcher, frontier: seq<Context>, c0: Context, t: Tree)
    requires m.Repeat? && c0 in frontier && Derives(g, m.body, t) && Yield(t) == []
    ensures !RunRepeat(g, n, m, frontier).Done?
    decreases n
  {
    if RunRepeat(g, n, m, frontier).Done? {
      AllMember(g, n, m.body, frontier, c0);
      Completeness(g, n, m.body, c0, t);
      RoundsGoOn(g, n - 1, m, RunAll(g, n, m.body, frontier).found, After(c0, t), t);
    }
  }

  // ----- a rule that starts with itself -----

  /** A match that returns has called the rules its matcher starts with, and they returned. */
  lemma {:induction false} HeadReturned(g: Grammar, n: nat, m: Matcher, ctx: Context, q: string) returns (c1: Context)
    requires q in Heads(g, m) && Run(g, n, m, ctx).Done?
    ensures Run(g, n, RuleReference(q), c1).Done?
    decreases m, 1
  {
    match m
    case Choice(alts) => c1 := HeadOfAlts(g, n, alts, ctx, q);
    case OneOrNone(body) => c1 := HeadReturned(g, n, body, ctx, q);
    case Repeat(body) =>
      AllMember(g, n, body, [ctx], ctx);
      c1 := HeadReturned(g, n, body, ctx, q);
    case RuleReference(r) => c1 := ctx;
    case RuleSeries(ps) => c1 := HeadOfSeries(g, n, ps, [ctx], ctx, q);
    case Capture(_, _, body) => c1 := HeadReturned(g, n, body, ctx, q);
  }

  lemma {:induction false} HeadOfAlts(g: Grammar, n: nat, alts: seq<Matcher>, ctx: Context, q: string)
    returns (c1: Context)
    requires q in HeadsAny(g, alts) && RunAlts(g, n, alts, ctx).Done?
    ensures Run(g, n, RuleReference(q), c1).Done?
    decreases alts, 0
  {
    if q in Heads(g, alts[0]) {
      c1 := HeadReturned(g, n, alts[0], ctx, q);
    } else {
      c1 := HeadOfAlts(g, n, alts[1..], ctx, q);
    }
  }

  lemma {:induction false} HeadOfSeries(g: Grammar, n: nat, ps: seq<Matcher>, ctxs: seq<Context>,
                                        c0: Context, q: string)
    returns (c1: Context)
    requires q in HeadsSeries(g, ps) && c0 in ctxs && RunSeries(g, n, ps, ctxs).Done?
    ensures Run(g, n, RuleReference(q), c1).Done?
    decreases ps, 0
  {
    AllMember(g, n, ps[0], ctxs, c0);
    if q in Heads(g, ps[0]) {
      c1 := HeadReturned(g, n, ps[0], c0, q);
    } else {
      var t :| Derives(g, ps[0], t) && Yield(t) == [];
      Completeness(g, n, ps[0], c0, t);
      c1 := HeadOfSeries(g, n, ps[1..], RunAll(g, n, ps[0], ctxs).found, After(c0, t), q);
    }
  }

  /** Along a chain of rules each call is nested in the one before. */
  lemma {:induction false} ChainReturned(g: Grammar, n: nat, ns: seq<string>, ctx: Context)
    returns (k: nat, c1: Context)
    requires Chain(g, ns) && Run(g, n, RuleReference(ns[0]), ctx).Done?
    ensures k < n && Run(g, k, RuleReference(ns[|ns| - 1]), c1).Done?
    decreases |ns|
  {
    assert StartsWith(g, ns[0], ns[1]);
    k := n - 1;
    c1 := HeadReturned(g, k, g.rules[ns[0]], ctx.(production := ns[0]), ns[1]);
    if |ns| > 2 {
      var tail := ns[1..];
      forall i | 0 <= i < |tail| - 1 ensures StartsWith(g, tail[i], tail[i + 1]) {
        assert StartsWith(g, ns[i + 1], ns[i + 2]);
      }
      k, c1 := ChainReturned(g, k, tail, c1);
    }
  }

  lemma {:induction false} LeftRecursionGoesOn(g: Grammar, n: nat, r: string, ctx: Context)
    requires StartsDeep(g, r, r)
    ensures !Run(g, n, RuleReference(r), ctx).Done?
    decreases n
  {
    if Run(g, n, RuleReference(r), ctx).Done? {
      var ns :| Chain(g, ns) && ns[0] == r && ns[|ns| - 1] == r;
      var k, c1 := ChainReturned(g, n, ns, ctx);
      LeftRecursionGoesOn(g, k, r, c1);
    }
  }

  /** However long one waits, in whatever context: no call of these returns. */
  lemma EndlessNeverReturns(g: Grammar, n: nat, m: Matcher, ctx: Context)
    requires Endless(g, m)
    ensures !Run(g, n, m, ctx).Done?
  {
    if m.Repeat? {
      var t :| Derives(g, m.body, t) && Yield(t) == [];
      RoundsGoOn(g, n, m, [ctx], ctx, t);
    } else {
      LeftRecursionGoesOn(g, n, m.rule, ctx);
    }
  }
}
