/** What completion means for whole derivations, when no completers are registered: the
    terminals offered, against the derivations that begin with the given tokens. */
module Continuations {
  import opened Matchers
  import opened Derivations
  import opened Reports

  // ----- the terminal behind a token of a tree -----

  /** What the terminal that covers token `n` of the tree would be offered as. */
  ghost function OfferAt(g: Grammar, m: Matcher, t: Tree, n: nat, production: string): Completion
    requires Derives(g, m, t) && n < |Yield(t)|
    decreases t
  {
    match m
    case Term(term) => TermOffer(g, term, production)
    case TermType(_, term) => TermOffer(g, term, production)
    case Choice(alts) => OfferAt(g, alts[t.index], t.sub, n, production)
    case OneOrNone(body) => OfferAt(g, body, t.sub, n, production)
    case Repeat(body) => OfferAtEach(g, body, t.subs, n, production)
    case RuleReference(r) => OfferAt(g, g.rules[r], t.sub, n, r)
    case RuleSeries(ps) => OfferAtSeries(g, ps, t.subs, n, production)
    case Capture(_, _, body) => OfferAt(g, body, t.sub, n, production)
  }

  ghost function OfferAtEach(g: Grammar, m: Matcher, ts: seq<Tree>, n: nat, production: string): Completion
    requires DerivesEach(g, m, ts) && n < |Yields(ts)|
    decreases ts
  {
    if n < |Yield(ts[0])| then OfferAt(g, m, ts[0], n, production)
    else OfferAtEach(g, m, ts[1..], n - |Yield(ts[0])|, production)
  }

  ghost function OfferAtSeries(g: Grammar, ms: seq<Matcher>, ts: seq<Tree>, n: nat, production: string): Completion
    requires DerivesSeries(g, ms, ts) && n < |Yields(ts)|
    decreases ts
  {
    if n < |Yield(ts[0])| then OfferAt(g, ms[0], ts[0], n, production)
    else OfferAtSeries(g, ms[1..], ts[1..], n - |Yield(ts[0])|, production)
  }

  /** The tokens begin the derivation `t` and do not end it; `x` stands for the terminal
      that takes its next token. */
  ghost predicate ContinuesBy(g: Grammar, m: Matcher, ctx: Context, x: Completion, t: Tree) {
    && Derives(g, m, t) && ctx.remainder <= Yield(t) && |ctx.remainder| < |Yield(t)|
    && OfferAt(g, m, t, |ctx.remainder|, ctx.production) == x
  }

  ghost predicate Continues(g: Grammar, m: Matcher, ctx: Context, x: Completion) {
    exists t :: ContinuesBy(g, m, ctx, x, t)
  }

  // ----- paths that can be gone to the end -----

  ghost predicate Fruitful(g: Grammar, m: Matcher) {
    exists t :: Derives(g, m, t)
  }

  /** There is a token for the terminal, and something for every piece behind the path. */
  ghost predicate Completable(g: Grammar, m: Matcher, p: Path)
    decreases p
  {
    match m
    case Term(_) => Fruitful(g, m)
    case TermType(_, _) => Fruitful(g, m)
    case Choice(alts) => p.Via? && p.index < |alts| && Completable(g, alts[p.index], p.sub)
    case OneOrNone(body) => p.Into? && Completable(g, body, p.sub)
    case Repeat(body) => p.Past? && Completable(g, body, p.sub)
    case RuleReference(r) => p.Into? && r in g.rules && Completable(g, g.rules[r], p.sub)
    case RuleSeries(ps) =>
      && p.Past? && |p.done| < |ps| && Completable(g, ps[|p.done|], p.sub)
      && forall i | |p.done| < i < |ps| :: Fruitful(g, ps[i])
    case Capture(_, _, body) => p.Into? && Completable(g, body, p.sub)
    case Bare(_) => false
  }

  ghost predicate MeetsCompletably(g: Grammar, m: Matcher, ctx: Context, x: Completion) {
    exists p :: Sees(g, m, ctx, p, Offer(x)) && Completable(g, m, p)
  }

  // ----- from a derivation to a path -----

  lemma PrefixPair(a: seq<Token>, b: seq<Token>, y: seq<Token>)
    requires a <= y && b <= y && |a| <= |b|
    ensures a <= b && b[|a|..] <= y[|a|..]
  {
    assert a == y[..|a|] && b == y[..|b|];
  }

  lemma {:induction false} PathOf(g: Grammar, m: Matcher, ctx: Context, t: Tree) returns (p: Path)
    requires g.completers == map[]
    requires Derives(g, m, t) && ctx.remainder <= Yield(t) && |ctx.remainder| < |Yield(t)|
    ensures Sees(g, m, ctx, p, Offer(OfferAt(g, m, t, |ctx.remainder|, ctx.production))) && Completable(g, m, p)
    decreases t, 1
  {
    match m
    case Term(_) => p := Here;
    case TermType(_, _) => p := Here;
    case Choice(alts) =>
      var sub := PathOf(g, alts[t.index], ctx, t.sub);
      p := Via(t.index, sub);
    case OneOrNone(body) =>
      var sub := PathOf(g, body, ctx, t.sub);
      p := Into(sub);
    case Repeat(body) =>
      var done, sub := PathOfEach(g, body, ctx, t.subs);
      p := Past(done, sub);
    case RuleReference(r) =>
      var sub := PathOf(g, g.rules[r], ctx.(production := r), t.sub);
      p := Into(sub);
    case RuleSeries(ps) =>
      var done, sub := PathOfSeries(g, ps, ctx, t.subs);
      p := Past(done, sub);
    case Capture(_, _, body) =>
      var sub := PathOf(g, body, ctx, t.sub);
      p := Into(sub);
  }

  /** The first tree ends within the tokens; what is left continues the others. */
  lemma StepPast(ctx: Context, ts: seq<Tree>)
    requires ts != [] && ctx.remainder <= Yields(ts) && |ctx.remainder| < |Yields(ts)|
    requires |Yield(ts[0])| <= |ctx.remainder|
    ensures Yield(ts[0]) <= ctx.remainder
    ensures var c1 := After(ctx, ts[0]);
            && c1.production == ctx.production && |c1.remainder| == |ctx.remainder| - |Yield(ts[0])|
            && c1.remainder <= Yields(ts[1..]) && |c1.remainder| < |Yields(ts[1..])|
  {
    var y := Yields(ts);
    assert y[..|Yield(ts[0])|] == Yield(ts[0]) && y[|Yield(ts[0])|..] == Yields(ts[1..]);
    PrefixPair(Yield(ts[0]), ctx.remainder, y);
  }

  lemma StopWithin(ctx: Context, ts: seq<Tree>)
    requires ts != [] && ctx.remainder <= Yields(ts) && |ctx.remainder| < |Yield(ts[0])|
    ensures ctx.remainder <= Yield(ts[0])
  {
    var y := Yields(ts);
    assert y[..|Yield(ts[0])|] == Yield(ts[0]);
    PrefixPair(ctx.remainder, Yield(ts[0]), y);
  }

  lemma {:induction false} PathOfEach(g: Grammar, m: Matcher, ctx: Context, ts: seq<Tree>)
    returns (done: seq<Tree>, p: Path)
    requires g.completers == map[]
    requires DerivesEach(g, m, ts) && ctx.remainder <= Yields(ts) && |ctx.remainder| < |Yields(ts)|
    ensures DerivesEach(g, m, done) && Yields(done) <= ctx.remainder
    ensures Sees(g, m, AfterAll(ctx, done), p, Offer(OfferAtEach(g, m, ts, |ctx.remainder|, ctx.production)))
    ensures Completable(g, m, p)
    decreases ts, 0
  {
    if |ctx.remainder| < |Yield(ts[0])| {
      StopWithin(ctx, ts);
      p := PathOf(g, m, ctx, ts[0]);
      done := [];
      AdvanceNothing(ctx);
    } else {
      StepPast(ctx, ts);
      var c1 := After(ctx, ts[0]);
      var rest;
      rest, p := PathOfEach(g, m, c1, ts[1..]);
      done := [ts[0]] + rest;
      PushOne(ctx, ts[0], rest);
      assert done[1..] == rest;
    }
  }

  lemma {:induction false} DerivedFruitful(g: Grammar, ps: seq<Matcher>, ts: seq<Tree>, i: nat)
    requires DerivesSeries(g, ps, ts) && i < |ps|
    ensures Fruitful(g, ps[i])
    decreases i
  {
    if i > 0 {
      DerivedFruitful(g, ps[1..], ts[1..], i - 1);
    }
  }

  lemma {:induction false} PathOfSeries(g: Grammar, ps: seq<Matcher>, ctx: Context, ts: seq<Tree>)
    returns (done: seq<Tree>, p: Path)
    requires g.completers == map[]
    requires DerivesSeries(g, ps, ts) && ctx.remainder <= Yields(ts) && |ctx.remainder| < |Yields(ts)|
    ensures |done| < |ps| && DerivesSeries(g, ps[..|done|], done) && Yields(done) <= ctx.remainder
    ensures Sees(g, ps[|done|], AfterAll(ctx, done), p,
                 Offer(OfferAtSeries(g, ps, ts, |ctx.remainder|, ctx.production)))
    ensures Completable(g, ps[|done|], p) && forall i | |done| < i < |ps| :: Fruitful(g, ps[i])
    decreases ts, 0
  {
    if |ctx.remainder| < |Yield(ts[0])| {
      StopWithin(ctx, ts);
      p := PathOf(g, ps[0], ctx, ts[0]);
      done := [];
      FirstPath(g, ps, ctx, p, Offer(OfferAtSeries(g, ps, ts, |ctx.remainder|, ctx.production)));
      forall i | 0 < i < |ps| ensures Fruitful(g, ps[i]) {
        DerivedFruitful(g, ps, ts, i);
      }
    } else {
      StepPast(ctx, ts);
      var c1 := After(ctx, ts[0]);
      var rest;
      rest, p := PathOfSeries(g, ps[1..], c1, ts[1..]);
      done := [ts[0]] + rest;
      PushPath(g, ps, ctx, c1, ts[0], rest, p, Offer(OfferAtSeries(g, ps, ts, |ctx.remainder|, ctx.production)));
      forall i | |done| < i < |ps| ensures Fruitful(g, ps[i]) {
        assert ps[i] == ps[1..][i - 1];
      }
    }
  }

  // ----- from a path to a derivation -----

  lemma {:induction false} YieldsConcat(a: seq<Tree>, b: seq<Tree>)
    ensures Yields(a + b) == Yields(a) + Yields(b)
    decreases |a|
  {
    if a == [] {
      assert a + b == b;
    } else {
      assert (a + b)[1..] == a[1..] + b;
      YieldsConcat(a[1..], b);
    }
  }

  lemma {:induction false} EachConcat(g: Grammar, m: Matcher, a: seq<Tree>, t: Tree, n: nat, production: string)
    requires DerivesEach(g, m, a) && Derives(g, m, t) && |Yields(a)| <= n < |Yields(a)| + |Yield(t)|
    ensures DerivesEach(g, m, a + [t]) && Yields(a + [t]) == Yields(a) + Yield(t)
    ensures OfferAtEach(g, m, a + [t], n, production) == OfferAt(g, m, t, n - |Yields(a)|, production)
    decreases |a|
  {
    YieldsConcat(a, [t]);
    assert [t][1..] == [] && Yields([t]) == Yield(t) + [] == Yield(t);
    if a == [] {
      assert a + [t] == [t];
    } else {
      assert (a + [t])[1..] == a[1..] + [t];
      EachConcat(g, m, a[1..], t, n - |Yield(a[0])|, production);
    }
  }

  lemma {:induction false} FillIn(g: Grammar, ps: seq<Matcher>) returns (ts: seq<Tree>)
    requires forall i | 0 <= i < |ps| :: Fruitful(g, ps[i])
    ensures DerivesSeries(g, ps, ts)
  {
    ts := [];
    if ps != [] {
      var t :| Derives(g, ps[0], t);
      var rest := FillIn(g, ps[1..]);
      ts := [t] + rest;
      assert ts[1..] == rest;
    }
  }

  lemma {:induction false} SeriesConcat(g: Grammar, ps: seq<Matcher>, a: seq<Tree>, t: Tree, fill: seq<Tree>, n: nat,
                                        production: string)
    requires |a| < |ps| && DerivesSeries(g, ps[..|a|], a) && Derives(g, ps[|a|], t)
    requires DerivesSeries(g, ps[|a| + 1..], fill) && |Yields(a)| <= n < |Yields(a)| + |Yield(t)|
    ensures var ts := a + ([t] + fill);
            && DerivesSeries(g, ps, ts) && Yields(ts) == Yields(a) + (Yield(t) + Yields(fill))
            && OfferAtSeries(g, ps, ts, n, production) == OfferAt(g, ps[|a|], t, n - |Yields(a)|, production)
    decreases |a|
  {
    var ts := a + ([t] + fill);
    YieldsConcat(a, [t] + fill);
    assert ([t] + fill)[1..] == fill;
    if a == [] {
      assert ts == [t] + fill;
    } else {
      assert ts[1..] == a[1..] + ([t] + fill) && ps[..|a|][1..] == ps[1..][..|a[1..]|];
      assert ps[1..][|a[1..]| + 1..] == ps[|a| + 1..];
      SeriesConcat(g, ps[1..], a[1..], t, fill, n - |Yield(a[0])|, production);
    }
  }

  lemma Beyond(rem: seq<Token>, a: seq<Token>, y: seq<Token>, z: seq<Token>)
    requires a <= rem && rem[|a|..] <= y && |rem| - |a| < |y|
    ensures rem <= a + (y + z) && |rem| < |a + (y + z)| && rem <= a + y
  {
    assert rem == a + rem[|a|..];
  }

  lemma RepeatContinues(g: Grammar, m: Matcher, ctx: Context, done: seq<Tree>, sub: Tree, x: Completion)
    requires m.Repeat? && DerivesEach(g, m.body, done) && Yields(done) <= ctx.remainder
    requires ContinuesBy(g, m.body, AfterAll(ctx, done), x, sub)
    ensures ContinuesBy(g, m, ctx, x, Iterated(done + [sub]))
  {
    EachConcat(g, m.body, done, sub, |ctx.remainder|, ctx.production);
    hide Update, Yield, Yields, Events, EventsOf, DerivesEach, OfferAtEach;
    Beyond(ctx.remainder, Yields(done), Yield(sub), []);
  }

  lemma SeriesContinues(g: Grammar, ps: seq<Matcher>, ctx: Context, done: seq<Tree>, sub: Tree, fill: seq<Tree>,
                        x: Completion)
    requires |done| < |ps| && DerivesSeries(g, ps[..|done|], done) && Yields(done) <= ctx.remainder
    requires ContinuesBy(g, ps[|done|], AfterAll(ctx, done), x, sub) && DerivesSeries(g, ps[|done| + 1..], fill)
    ensures ContinuesBy(g, RuleSeries(ps), ctx, x, InOrder(done + ([sub] + fill)))
  {
    SeriesConcat(g, ps, done, sub, fill, |ctx.remainder|, ctx.production);
    Beyond(ctx.remainder, Yields(done), Yield(sub), Yields(fill));
  }

  lemma {:induction false} TreeOf(g: Grammar, m: Matcher, ctx: Context, p: Path, x: Completion) returns (t: Tree)
    requires g.completers == map[]
    requires Sees(g, m, ctx, p, Offer(x)) && Completable(g, m, p)
    ensures ContinuesBy(g, m, ctx, x, t)
    decreases p
  {
    match m
    case Term(_) => t :| Derives(g, m, t);
    case TermType(_, _) => t :| Derives(g, m, t);
    case Choice(alts) =>
      var sub := TreeOf(g, alts[p.index], ctx, p.sub, x);
      t := Picked(p.index, sub);
    case OneOrNone(body) =>
      var sub := TreeOf(g, body, ctx, p.sub, x);
      t := Taken(sub);
    case Repeat(body) =>
      var sub := TreeOf(g, body, AfterAll(ctx, p.done), p.sub, x);
      t := Iterated(p.done + [sub]);
      RepeatContinues(g, m, ctx, p.done, sub, x);
    case RuleReference(r) =>
      var sub := TreeOf(g, g.rules[r], ctx.(production := r), p.sub, x);
      t := Expanded(sub);
    case RuleSeries(ps) =>
      var sub := TreeOf(g, ps[|p.done|], AfterAll(ctx, p.done), p.sub, x);
      var fill := FillIn(g, ps[|p.done| + 1..]);
      t := InOrder(p.done + ([sub] + fill));
      SeriesContinues(g, ps, ctx, p.done, sub, fill, x);
    case Capture(name, collects, body) =>
      var sub := TreeOf(g, body, ctx, p.sub, x);
      t := Captured(name, collects, sub);
  }

  // ----- the main results -----

  /** A terminal takes the next token of some derivation that begins with the tokens exactly
      when some path leads to it that can be gone to the end. */
  lemma ContinuesExactly(g: Grammar, m: Matcher, ctx: Context, x: Completion)
    requires g.completers == map[]
    ensures Continues(g, m, ctx, x) <==> MeetsCompletably(g, m, ctx, x)
  {
    if Continues(g, m, ctx, x) {
      var t :| ContinuesBy(g, m, ctx, x, t);
      var p := PathOf(g, m, ctx, t);
    }
    if MeetsCompletably(g, m, ctx, x) {
      var p :| Sees(g, m, ctx, p, Offer(x)) && Completable(g, m, p);
      var t := TreeOf(g, m, ctx, p, x);
    }
  }

  /** Everything in `m` derives something. */
  ghost predicate FruitfulWhole(g: Grammar, m: Matcher) {
    && Fruitful(g, m)
    && match m
       case Choice(alts) => FruitfulAll(g, alts)
       case OneOrNone(body) => FruitfulWhole(g, body)
       case Repeat(body) => FruitfulWhole(g, body)
       case RuleSeries(ps) => FruitfulAll(g, ps)
       case Capture(_, _, body) => FruitfulWhole(g, body)
       case _ => true
  }

  ghost predicate FruitfulAll(g: Grammar, ms: seq<Matcher>) {
    ms == [] || (FruitfulWhole(g, ms[0]) && FruitfulAll(g, ms[1..]))
  }

  ghost predicate FruitfulGrammar(g: Grammar) {
    forall r | r in g.rules :: FruitfulWhole(g, g.rules[r])
  }

  lemma {:induction false} FruitfulMember(g: Grammar, ms: seq<Matcher>, i: nat)
    requires FruitfulAll(g, ms) && i < |ms|
    ensures FruitfulWhole(g, ms[i])
    decreases i
  {
    if i > 0 {
      FruitfulMember(g, ms[1..], i - 1);
    }
  }

  lemma {:induction false} AllCompletable(g: Grammar, m: Matcher, ctx: Context, p: Path, x: Completion)
    requires g.completers == map[] && FruitfulGrammar(g) && FruitfulWhole(g, m)
    requires Sees(g, m, ctx, p, Offer(x))
    ensures Completable(g, m, p)
    decreases p
  {
    match m
    case Term(_) =>
    case TermType(_, _) =>
    case Choice(alts) =>
      FruitfulMember(g, alts, p.index);
      AllCompletable(g, alts[p.index], ctx, p.sub, x);
    case OneOrNone(body) => AllCompletable(g, body, ctx, p.sub, x);
    case Repeat(body) => AllCompletable(g, body, AfterAll(ctx, p.done), p.sub, x);
    case RuleReference(r) => AllCompletable(g, g.rules[r], ctx.(production := r), p.sub, x);
    case RuleSeries(ps) =>
      forall i | 0 <= i < |ps| ensures FruitfulWhole(g, ps[i]) {
        FruitfulMember(g, ps, i);
      }
      AllCompletable(g, ps[|p.done|], AfterAll(ctx, p.done), p.sub, x);
    case Capture(_, _, body) => AllCompletable(g, body, ctx, p.sub, x);
  }

  /** With no completers registered: whatever can follow the tokens in a derivation is
      offered; and in a grammar whose matchers all derive something, nothing else is. */
  lemma OffersContinue(g: Grammar, n: nat, m: Matcher, ctx: Context, x: Completion)
    requires g.completers == map[] && Run(g, n, m, ctx).Done?
    ensures Continues(g, m, ctx, x) ==> x in Run(g, n, m, ctx).offers
    ensures FruitfulGrammar(g) && FruitfulWhole(g, m) ==>
              (x in Run(g, n, m, ctx).offers <==> Continues(g, m, ctx, x))
  {
    OffersExactly(g, n, m, ctx, x);
    ContinuesExactly(g, m, ctx, x);
    hide Run, Continues;
    if FruitfulGrammar(g) && FruitfulWhole(g, m) && Meets(g, m, ctx, Offer(x)) {
      var p :| Sees(g, m, ctx, p, Offer(x));
      AllCompletable(g, m, ctx, p, x);
    }
  }

  /** Elsewhere an offer can lead nowhere: a terminal in front of a choice of nothing. */
  lemma OfferLeadsNowhere(g: Grammar, n: nat, term: Terminal, ctx: Context)
    requires ctx.remainder == []
    ensures var m := RuleSeries([Term(term), Choice([])]);
            var x := TermOffer(g, term, ctx.production);
            && Run(g, n, m, ctx) == Done([], {x})
            && !Continues(g, m, ctx, x)
  {
    var m := RuleSeries([Term(term), Choice([])]);
    var x := TermOffer(g, term, ctx.production);
    assert Run(g, n, Term(term), ctx) == Done([], {x});
    assert [ctx][1..] == [] && RunAll(g, n, Term(term), []) == Done([], {});
    assert RunAll(g, n, Term(term), [ctx]) == Done([], {x});
    forall t ensures !ContinuesBy(g, m, ctx, x, t) {
      if ContinuesBy(g, m, ctx, x, t) {
        DerivedFruitful(g, m.pieces, t.subs, 1);
      }
    }
  }
}
