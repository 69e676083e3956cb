/** The matchers as they run: loops over growing lists of contexts and one shared
    set of completions, proved against `Matchers.Run`. */
module MatchEngine {
  import opened Captures
  import opened Common
  import opened Continuations
  import opened Matchers
  import opened Derivations
  import opened Reports
  import opened Languages
  import opened Listings

  class Completions {
    var items: set<Completion>

    constructor ()
      ensures items == {}
    {
      items := {};
    }
  }

  type Result<T> = Common.Result<T, MatchError>

  function Contexts(o: Outcome): Result<seq<Context>>
    requires !o.Pending?
  {
    if o.Raised? then Error(o.error) else Ok(o.found)
  }

  ghost predicate Collected(completions: Completions?, before: set<Completion>, o: Outcome)
    reads completions
  {
    o.Done? && completions != null ==> completions.items == before + o.offers
  }

  ghost function Items(completions: Completions?): set<Completion>
    reads completions
  {
    if completions == null then {} else completions.items
  }

  /** `match` of every matcher class. Passing no completions (None) collects
      nothing; the contexts returned are the same either way. */
  method Match(g: Grammar, ghost n: nat, m: Matcher, ctx: Context, completions: Completions?)
    returns (r: Result<seq<Context>>)
    requires !Run(g, n, m, ctx).Pending?
    modifies completions
    ensures r == Contexts(Run(g, n, m, ctx))
    ensures r.Ok? ==> Explained(g, m, ctx, r.value)
    ensures Collected(completions, old(Items(completions)), Run(g, n, m, ctx))
    decreases n, m, 1
  {
    hide Explained;
    if Run(g, n, m, ctx).Done? {
      ReturnsExplained(g, n, m, ctx);
    }
    match m
    case Term(t) => r := MatchTerminal(g, n, m, t, ctx, completions);
    case TermType(_, t) => r := MatchTerminal(g, n, m, t, ctx, completions);
    case Bare(name) => r := Error(NotAMatcher(name));
    case Choice(alts) => r := MatchChoice(g, n, alts, ctx, completions);
    case OneOrNone(body) =>
      r := Match(g, n, body, ctx, completions);
      if r.Ok? {
        r := Ok([ctx] + r.value);
      }
    case Repeat(body) => r := MatchRepeat(g, n, m, ctx, completions);
    case RuleReference(rule) =>
      if rule !in g.rules {
        return Error(UnknownRule(rule));
      }
      r := Match(g, n - 1, g.rules[rule], ctx.(production := rule), completions);
      if r.Ok? {
        r := Ok(Restore(r.value, ctx.production));
      }
    case RuleSeries(ps) => r := MatchSeries(g, n, ps, ctx, completions);
    case Capture(_, _, _) => r := MatchCapture(g, n, m, ctx, completions);
  }

  method MatchTerminal(g: Grammar, ghost n: nat, m: Matcher, t: Terminal, ctx: Context, completions: Completions?)
    returns (r: Result<seq<Context>>)
    requires m == Term(t) || (m.TermType? && m.sub == t)
    requires !Run(g, n, m, ctx).Pending?
    modifies completions
    ensures r == Contexts(Run(g, n, m, ctx))
    ensures Collected(completions, old(Items(completions)), Run(g, n, m, ctx))
    decreases n, m, 0
  {
    if ctx.remainder != [] {
      if Takes(g, m, ctx.remainder[0]) {
        return Ok([WithMatch(ctx, 1)]);
      }
    } else if completions != null {
      completions.items := completions.items + {TermOffer(g, t, ctx.production)};
    }
    return Ok([]);
  }

  method MatchChoice(g: Grammar, ghost n: nat, alts: seq<Matcher>, ctx: Context, completions: Completions?)
    returns (r: Result<seq<Context>>)
    requires !RunAlts(g, n, alts, ctx).Pending?
    modifies completions
    ensures r == Contexts(RunAlts(g, n, alts, ctx))
    ensures Collected(completions, old(Items(completions)), RunAlts(g, n, alts, ctx))
    decreases n, alts, 0
  {
    var found: seq<Context> := [];
    ghost var before := Items(completions);
    ghost var acc := Done([], {});
    ghost var all := RunAlts(g, n, alts, ctx);
    JoinUnit(all);
    assert alts[0..] == alts;
    var i := 0;
    while i < |alts|
      invariant i <= |alts|
      invariant all == Join(acc, RunAlts(g, n, alts[i..], ctx))
      invariant Gathered(completions, before, acc, found)
    {
      assert alts[i..][0] == alts[i] && alts[i..][1..] == alts[i + 1..];
      var sub := Match(g, n, alts[i], ctx, completions);
      if sub.Error? {
        return sub;
      }
      ghost var o := Run(g, n, alts[i], ctx);
      JoinAssociates(acc, o, RunAlts(g, n, alts[i + 1..], ctx));
      acc := Join(acc, o);
      found := found + sub.value;
      i := i + 1;
    }
    JoinUnit(acc);
    return Ok(found);
  }

  lemma JoinAssociates(a: Outcome, b: Outcome, d: Outcome)
    ensures Join(a, Join(b, d)) == Join(Join(a, b), d)
  {
    if a.Done? && b.Done? && d.Done? {
      assert a.found + (b.found + d.found) == (a.found + b.found) + d.found;
    }
  }

  lemma NextOfAll(g: Grammar, n: nat, m: Matcher, ctxs: seq<Context>, i: nat, acc: Outcome)
    requires i < |ctxs|
    ensures Join(acc, RunAll(g, n, m, ctxs[i..]))
         == Join(Join(acc, Run(g, n, m, ctxs[i])), RunAll(g, n, m, ctxs[i + 1..]))
  {
    assert ctxs[i..][0] == ctxs[i] && ctxs[i..][1..] == ctxs[i + 1..];
    JoinAssociates(acc, Run(g, n, m, ctxs[i]), RunAll(g, n, m, ctxs[i + 1..]));
  }

  lemma NoneLeft(g: Grammar, n: nat, m: Matcher, ctxs: seq<Context>)
    requires ctxs == []
    ensures RunAll(g, n, m, ctxs) == Done([], {})
  {}

  /** What a loop has gathered so far agrees with `acc`. */
  ghost predicate Gathered(completions: Completions?, before: set<Completion>, acc: Outcome, found: seq<Context>)
    reads completions
  {
    && acc.Done? && acc.found == found
    && (completions != null ==> completions.items == before + acc.offers)
  }

  /** The inner loop of repeat and rule_series: one matcher over a list of contexts. */
  method MatchEach(g: Grammar, ghost n: nat, m: Matcher, ctxs: seq<Context>, completions: Completions?)
    returns (r: Result<seq<Context>>)
    requires !RunAll(g, n, m, ctxs).Pending?
    modifies completions
    ensures r == Contexts(RunAll(g, n, m, ctxs))
    ensures Collected(completions, old(Items(completions)), RunAll(g, n, m, ctxs))
    decreases n, m, 2
  {
    hide Run, RunAll;
    var newCtxs: seq<Context> := [];
    ghost var before := Items(completions);
    ghost var acc := Done([], {});
    ghost var all := RunAll(g, n, m, ctxs);
    JoinUnit(all);
    assert ctxs[0..] == ctxs;
    var i := 0;
    while i < |ctxs|
      invariant i <= |ctxs|
      invariant all == Join(acc, RunAll(g, n, m, ctxs[i..]))
      invariant Gathered(completions, before, acc, newCtxs)
    {
      assert ctxs[i] in ctxs;
      NextOfAll(g, n, m, ctxs, i, acc);
      var sub := Match(g, n, m, ctxs[i], completions);
      if sub.Error? {
        return sub;
      }
      ghost var o := Run(g, n, m, ctxs[i]);
      UnionAssociates(before, acc.offers, o.offers);
      acc := Join(acc, o);
      newCtxs := newCtxs + sub.value;
      i := i + 1;
    }
    NoneLeft(g, n, m, ctxs[i..]);
    JoinUnit(acc);
    return Ok(newCtxs);
  }

  lemma UnionAssociates(a: set<Completion>, b: set<Completion>, d: set<Completion>)
    ensures (a + b) + d == a + (b + d)
  {}

  lemma JoinUnit(o: Outcome)
    ensures Join(Done([], {}), o) == o == Join(o, Done([], {}))
  {
    if o.Done? {
      assert [] + o.found == o.found == o.found + [];
    }
  }

  method MatchRepeat(g: Grammar, ghost n: nat, m: Matcher, ctx: Context, completions: Completions?)
    returns (r: Result<seq<Context>>)
    requires m.Repeat?
    requires !Run(g, n, m, ctx).Pending?
    modifies completions
    ensures r == Contexts(Run(g, n, m, ctx))
    ensures Collected(completions, old(Items(completions)), Run(g, n, m, ctx))
    decreases n, m, 0
  {
    var found, ctxs := [ctx], [ctx];
    ghost var got: set<Completion> := {};
    ghost var left: nat := n;
    while true
      invariant left <= n && Run(g, n, m, ctx) == Join(Done(found, got), RunRepeat(g, left, m, ctxs))
      invariant completions != null ==> completions.items == old(Items(completions)) + got
      decreases left
    {
      ghost var step := RunAll(g, left, m.body, ctxs);
      var newCtxs := MatchEach(g, left, m.body, ctxs, completions);
      if newCtxs.Error? {
        return newCtxs;
      }
      if newCtxs.value == [] {
        assert found + [] == found;
        return Ok(found);
      }
      left := left - 1;
      JoinAssociates(Done(found, got), step, RunRepeat(g, left, m, newCtxs.value));
      found := found + newCtxs.value;
      ctxs := newCtxs.value;
      got := got + step.offers;
    }
  }

  ghost function Offering(got: set<Completion>, o: Outcome): Outcome {
    if o.Done? then Done(o.found, got + o.offers) else o
  }

  lemma NextOfSeries(g: Grammar, n: nat, ps: seq<Matcher>, i: nat, ctxs: seq<Context>, got: set<Completion>)
    requires i < |ps|
    ensures var step := RunAll(g, n, ps[i], ctxs);
            Offering(got, RunSeries(g, n, ps[i..], ctxs))
            == if !step.Done? || step.found == [] then Offering(got, step)
               else Offering(got + step.offers, RunSeries(g, n, ps[i + 1..], step.found))
  {
    assert ps[i..][0] == ps[i] && ps[i..][1..] == ps[i + 1..];
    var step := RunAll(g, n, ps[i], ctxs);
    if step.Done? && step.found != [] {
      var rest := RunSeries(g, n, ps[i + 1..], step.found);
      if rest.Done? {
        assert got + (step.offers + rest.offers) == got + step.offers + rest.offers;
      }
    }
  }

  method MatchSeries(g: Grammar, ghost n: nat, ps: seq<Matcher>, ctx: Context, completions: Completions?)
    returns (r: Result<seq<Context>>)
    requires !RunSeries(g, n, ps, [ctx]).Pending?
    modifies completions
    ensures r == Contexts(RunSeries(g, n, ps, [ctx]))
    ensures Collected(completions, old(Items(completions)), RunSeries(g, n, ps, [ctx]))
    decreases n, ps, 0
  {
    hide Run, RunAll, RunSeries;
    var ctxs := [ctx];
    ghost var before := Items(completions);
    ghost var got: set<Completion> := {};
    ghost var all := RunSeries(g, n, ps, [ctx]);
    assert ps[0..] == ps;
    var i := 0;
    while i < |ps|
      invariant i <= |ps|
      invariant all == Offering(got, RunSeries(g, n, ps[i..], ctxs))
      invariant completions != null ==> completions.items == before + got
    {
      NextOfSeries(g, n, ps, i, ctxs, got);
      var newCtxs := MatchEach(g, n, ps[i], ctxs, completions);
      if newCtxs.Error? || newCtxs.value == [] {
        return newCtxs;
      }
      ghost var more := RunAll(g, n, ps[i], ctxs).offers;
      UnionAssociates(before, got, more);
      got := got + more;
      ctxs := newCtxs.value;
      i := i + 1;
    }
    SeriesOver(g, n, ps[i..], ctxs);
    return Ok(ctxs);
  }

  lemma SeriesOver(g: Grammar, n: nat, ps: seq<Matcher>, ctxs: seq<Context>)
    requires ps == []
    ensures RunSeries(g, n, ps, ctxs) == Done(ctxs, {})
  {}

  lemma NextOfBind(ctx: Context, name: string, collects: bool, found: seq<Context>, i: nat, output: seq<Context>)
    requires i < |found| && !Clashes(found[i].bindings, name, collects)
    ensures Join(Done(output, {}), BindEach(ctx, name, collects, found[i..]))
         == Join(Done(output + [BindOne(ctx, name, collects, found[i])], {}),
                 BindEach(ctx, name, collects, found[i + 1..]))
  {
    assert found[i..][0] == found[i] && found[i..][1..] == found[i + 1..];
    JoinAssociates(Done(output, {}), Done([BindOne(ctx, name, collects, found[i])], {}),
                   BindEach(ctx, name, collects, found[i + 1..]));
  }

  /** The loop of the captures over what the body matched. */
  method BindResults(ctx: Context, name: string, collects: bool, found: seq<Context>)
    returns (r: Result<seq<Context>>)
    ensures r == Contexts(BindEach(ctx, name, collects, found))
  {
    var output: seq<Context> := [];
    ghost var all := BindEach(ctx, name, collects, found);
    assert found[0..] == found;
    JoinUnit(all);
    for i := 0 to |found|
      invariant all == Join(Done(output, {}), BindEach(ctx, name, collects, found[i..]))
    {
      if Clashes(found[i].bindings, name, collects) {
        assert found[i..][0] == found[i];
        return Error(MixedBinding(name));
      }
      NextOfBind(ctx, name, collects, found, i, output);
      output := output + [BindOne(ctx, name, collects, found[i])];
    }
    assert output + [] == output;
    return Ok(output);
  }

  /** named_symbol and named_collector. A registered completer answers instead of
      the body, whose own offers go to a set that is thrown away. */
  method MatchCapture(g: Grammar, ghost n: nat, m: Matcher, ctx: Context, completions: Completions?)
    returns (r: Result<seq<Context>>)
    requires m.Capture?
    requires !Run(g, n, m, ctx).Pending?
    modifies completions
    ensures r == Contexts(Run(g, n, m, ctx))
    ensures r.Ok? ==> Explained(g, m, ctx, r.value)
    ensures Collected(completions, old(Items(completions)), Run(g, n, m, ctx))
    decreases n, m, 0
  {
    hide Explained;
    if Run(g, n, m, ctx).Done? {
      ReturnsExplained(g, n, m, ctx);
    }
    var passIn := completions;
    if Intercepted(g, ctx, m.name) && completions != null {
      completions.items := completions.items + g.completers[(ctx.production, m.name)](ctx);
      passIn := new Completions();
    }
    var inner := Match(g, n, m.body, ctx, passIn);
    if inner.Error? {
      return inner;
    }
    r := BindResults(ctx, m.name, m.collects, inner.value);
  }

  // ----- ParsingRuleSet -----

  /** There is no such start rule, or some path from it leads to an error. */
  ghost predicate Faulty(g: Grammar, start: string, ctx: Context) {
    start !in g.rules || MeetsFault(g, g.rules[start], ctx)
  }

  /** The error is that there is no such start rule, or one that some path leads to. */
  ghost predicate Blamed(g: Grammar, start: string, ctx: Context, e: MatchError) {
    if start in g.rules then Meets(g, g.rules[start], ctx, Fault(e)) else e == UnknownRule(start)
  }

  /** The match of the start rule ends; see `Halting.ReturnsExactly`. */
  ghost predicate StartEnds(g: Grammar, start: string, ctx: Context) {
    start in g.rules ==> Halts(g, g.rules[start], ctx)
  }

  method Parse(g: Grammar, start: string, toks: seq<Token>, bindings: map<string, Binding>, src: string, hasSrc: bool)
    returns (r: Result<seq<Context>>, ghost n: nat)
    requires StartEnds(g, start, Context(src, hasSrc, bindings, [], toks, start))
    ensures start !in g.rules ==> r == Error(UnknownRule(start))
    ensures start in g.rules ==>
              var o := Run(g, n, g.rules[start], Context(src, hasSrc, bindings, [], toks, start));
              !o.Pending? && r == Contexts(o)
  {
    n := 0;
    if start !in g.rules {
      return Error(UnknownRule(start)), 0;
    }
    var ctx := Context(src, hasSrc, bindings, [], toks, start);
    n :| !Run(g, n, g.rules[start], ctx).Pending?;
    r := Match(g, n, g.rules[start], ctx, null);
  }

  /** `x` is the first of the contexts that a match returns to have used up every token. */
  ghost predicate FirstWhole(o: Outcome, x: Context) {
    o.Done? && exists i ::
      && 0 <= i < |o.found| && o.found[i] == x && x.remainder == []
      && forall j | 0 <= j < i :: o.found[j].remainder != []
  }

  /** `x` is the context of the first derivation of all the tokens, and what is bound in
      it are that derivation's captures. */
  ghost predicate Parses(g: Grammar, start: string, ctx: Context, x: Context) {
    && start in g.rules
    && exists t ::
         && FirstDerivation(g, g.rules[start], ctx, t) && Reaches(g, g.rules[start], ctx, t, x)
         && Bindings(ctx, t, x.bindings)
  }

  /** whole_match: the first context that used up every token, if there is one;
      there is one exactly when the tokens are in the language of the start rule. */
  method WholeMatch(g: Grammar, start: string, toks: seq<Token>, src: string, hasSrc: bool)
    returns (r: Result<seq<Context>>)
    requires StartEnds(g, start, Context(src, hasSrc, map[], [], toks, start))
    ensures r.Ok? ==> |r.value| <= 1 && (r.value != [] <==> InLanguage(g, start, toks))
    ensures r.Ok? && r.value != [] ==>
              && Parses(g, start, Context(src, hasSrc, map[], [], toks, start), r.value[0])
              && exists n ::
                   FirstWhole(Run(g, n, g.rules[start], Context(src, hasSrc, map[], [], toks, start)), r.value[0])
    ensures r.Error? <==> Faulty(g, start, Context(src, hasSrc, map[], [], toks, start))
    ensures r.Error? ==> Blamed(g, start, Context(src, hasSrc, map[], [], toks, start), r.error)
  {
    ghost var ctx := Context(src, hasSrc, map[], [], toks, start);
    var parsed, n := Parse(g, start, toks, map[], src, hasSrc);
    hide Run, Meets, MeetsFault, Bindings, FirstDerivation, Reaches;
    if start in g.rules {
      RaisesExactly(g, n, g.rules[start], ctx);
    }
    if parsed.Error? {
      return parsed;
    }
    WholeMatchExactly(g, n, start, ctx);
    for i := 0 to |parsed.value|
      invariant forall j | 0 <= j < i :: parsed.value[j].remainder != []
    {
      if parsed.value[i].remainder == [] {
        ghost var t := FirstIsFirst(g, n, g.rules[start], ctx, i);
        FoundBindings(g, n, g.rules[start], ctx, t, parsed.value[i]);
        assert FirstWhole(Run(g, n, g.rules[start], ctx), parsed.value[i]);
        return Ok([parsed.value[i]]);
      }
    }
    return Ok([]);
  }

  /** complete: the terminals that can come next. */
  method Complete(g: Grammar, start: string, toks: seq<Token>, bindings: map<string, Binding>,
                  src: string, hasSrc: bool)
    returns (r: Result<set<Completion>>)
    requires StartEnds(g, start, Context(src, hasSrc, bindings, [], toks, start))
    ensures r.Ok? ==>
              && start in g.rules
              && var ctx := Context(src, hasSrc, bindings, [], toks, start);
                 && (forall x :: x in r.value <==> Meets(g, g.rules[start], ctx, Offer(x)))
                 && (g.completers == map[] && FruitfulGrammar(g) ==>
                       forall x :: x in r.value <==> Continues(g, g.rules[start], ctx, x))
    ensures r.Error? <==> Faulty(g, start, Context(src, hasSrc, bindings, [], toks, start))
    ensures r.Error? ==> Blamed(g, start, Context(src, hasSrc, bindings, [], toks, start), r.error)
  {
    if start !in g.rules {
      return Error(UnknownRule(start));
    }
    var ctx := Context(src, hasSrc, bindings, [], toks, start);
    var completions := new Completions();
    ghost var n: nat :| !Run(g, n, g.rules[start], ctx).Pending?;
    hide Run, Meets, MeetsFault, Continues, FruitfulWhole;
    var found := Match(g, n, g.rules[start], ctx, completions);
    RaisesExactly(g, n, g.rules[start], ctx);
    if found.Error? {
      return Error(found.error);
    }
    forall x
      ensures x in completions.items <==> Meets(g, g.rules[start], ctx, Offer(x))
    {
      OffersExactly(g, n, g.rules[start], ctx, x);
    }
    if g.completers == map[] && FruitfulGrammar(g) {
      forall x ensures x in completions.items <==> Continues(g, g.rules[start], ctx, x) {
        OffersContinue(g, n, g.rules[start], ctx, x);
      }
    }
    return Ok(completions.items);
  }
}
