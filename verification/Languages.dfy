/** Consequences for whole grammars: when matching cannot raise, and which token
    lists it accepts. */
module Languages {
  import opened Matchers
  import opened Derivations
  import opened Halting
  import opened Reports

  // ----- grammars that never raise -----

  /** References resolve, and every name is captured in one way only: by collectors
      when it is in `coll`, by symbols otherwise. */
  ghost predicate Regular(g: Grammar, coll: set<string>, m: Matcher) {
    match m
    case Term(_) => true
    case TermType(_, _) => true
    case Bare(_) => false
    case Choice(alts) => RegularAll(g, coll, alts)
    case OneOrNone(body) => Regular(g, coll, body)
    case Repeat(body) => Regular(g, coll, body)
    case RuleReference(r) => r in g.rules
    case RuleSeries(ps) => RegularAll(g, coll, ps)
    case Capture(name, collects, body) => (collects <==> name in coll) && Regular(g, coll, body)
  }

  ghost predicate RegularAll(g: Grammar, coll: set<string>, ms: seq<Matcher>) {
    ms == [] || (Regular(g, coll, ms[0]) && RegularAll(g, coll, ms[1..]))
  }

  ghost predicate RegularGrammar(g: Grammar, coll: set<string>) {
    forall r | r in g.rules :: Regular(g, coll, g.rules[r])
  }

  /** No plain binding under a collector's name. */
  ghost predicate Kinded(coll: set<string>, b: map<string, Binding>) {
    forall n | n in coll && n in b :: b[n].Many?
  }

  ghost predicate EventsKinded(coll: set<string>, evs: seq<Event>) {
    forall e | e in evs :: e.collects <==> e.name in coll
  }

  lemma {:induction false} RegularMember(g: Grammar, coll: set<string>, ms: seq<Matcher>, i: nat)
    requires RegularAll(g, coll, ms) && i < |ms|
    ensures Regular(g, coll, ms[i])
    decreases i
  {
    if i > 0 {
      RegularMember(g, coll, ms[1..], i - 1);
    }
  }

  lemma {:induction false} RegularPrefix(g: Grammar, coll: set<string>, ms: seq<Matcher>, n: nat)
    requires RegularAll(g, coll, ms) && n <= |ms|
    ensures RegularAll(g, coll, ms[..n])
  {
    if n > 0 {
      RegularPrefix(g, coll, ms[1..], n - 1);
      assert ms[..n][1..] == ms[1..][..n - 1];
    }
  }

  lemma {:induction false} DerivedEventsKinded(g: Grammar, coll: set<string>, m: Matcher, t: Tree)
    requires RegularGrammar(g, coll) && Regular(g, coll, m) && Derives(g, m, t)
    ensures EventsKinded(coll, Events(t))
    decreases t
  {
    match m
    case Term(_) =>
    case TermType(_, _) =>
    case Bare(_) =>
    case Choice(alts) =>
      RegularMember(g, coll, alts, t.index);
      DerivedEventsKinded(g, coll, alts[t.index], t.sub);
    case OneOrNone(body) =>
      if t.Taken? {
        DerivedEventsKinded(g, coll, body, t.sub);
      }
    case Repeat(body) => EachEventsKinded(g, coll, body, t.subs);
    case RuleReference(r) => DerivedEventsKinded(g, coll, g.rules[r], t.sub);
    case RuleSeries(ps) => SeriesEventsKinded(g, coll, ps, t.subs);
    case Capture(_, _, body) => DerivedEventsKinded(g, coll, body, t.sub);
  }

  lemma {:induction false} EachEventsKinded(g: Grammar, coll: set<string>, m: Matcher, ts: seq<Tree>)
    requires RegularGrammar(g, coll) && Regular(g, coll, m) && DerivesEach(g, m, ts)
    ensures EventsKinded(coll, EventsOf(ts))
    decreases ts
  {
    if ts == [] {
    } else {
      DerivedEventsKinded(g, coll, m, ts[0]);
      EachEventsKinded(g, coll, m, ts[1..]);
    }
  }

  lemma {:induction false} SeriesEventsKinded(g: Grammar, coll: set<string>, ms: seq<Matcher>, ts: seq<Tree>)
    requires RegularGrammar(g, coll) && RegularAll(g, coll, ms) && DerivesSeries(g, ms, ts)
    ensures EventsKinded(coll, EventsOf(ts))
    decreases ts
  {
    if ts == [] {
    } else {
      DerivedEventsKinded(g, coll, ms[0], ts[0]);
      SeriesEventsKinded(g, coll, ms[1..], ts[1..]);
    }
  }

  lemma {:induction false} UpdateKinded(coll: set<string>, ctx: Context, b: map<string, Binding>, evs: seq<Event>)
    requires Kinded(coll, b) && EventsKinded(coll, evs)
    ensures Kinded(coll, Update(ctx, b, evs))
    decreases |evs|
  {
    if evs == [] {
    } else {
      var last := evs[|evs| - 1];
      assert last in evs;
      UpdateKinded(coll, ctx, b, evs[..|evs| - 1]);
    }
  }

  lemma {:induction false} NoFault(g: Grammar, coll: set<string>, m: Matcher, ctx: Context, p: Path, e: MatchError)
    requires RegularGrammar(g, coll) && Regular(g, coll, m) && Kinded(coll, ctx.bindings)
    ensures !Sees(g, m, ctx, p, Fault(e))
    decreases p
  {
    if Sees(g, m, ctx, p, Fault(e)) {
      match m
      case Choice(alts) =>
        RegularMember(g, coll, alts, p.index);
        NoFault(g, coll, alts[p.index], ctx, p.sub, e);
      case OneOrNone(body) => NoFault(g, coll, body, ctx, p.sub, e);
      case Repeat(body) =>
        EachEventsKinded(g, coll, body, p.done);
        UpdateKinded(coll, ctx, ctx.bindings, EventsOf(p.done));
        NoFault(g, coll, body, AfterAll(ctx, p.done), p.sub, e);
      case RuleReference(r) => NoFault(g, coll, g.rules[r], ctx.(production := r), p.sub, e);
      case RuleSeries(ps) =>
        RegularPrefix(g, coll, ps, |p.done|);
        RegularMember(g, coll, ps, |p.done|);
        SeriesEventsKinded(g, coll, ps[..|p.done|], p.done);
        UpdateKinded(coll, ctx, ctx.bindings, EventsOf(p.done));
        NoFault(g, coll, ps[|p.done|], AfterAll(ctx, p.done), p.sub, e);
      case Capture(_, _, body) =>
        if p.Clash? {
          DerivedEventsKinded(g, coll, body, p.tree);
          UpdateKinded(coll, ctx, ctx.bindings, Events(p.tree));
        } else {
          NoFault(g, coll, body, ctx, p.sub, e);
        }
    }
  }

  /** Then no match raises; and if the grammar has no left recursion and no repeat over
      nothing either, every match returns. */
  lemma RegularNeverRaises(g: Grammar, coll: set<string>, m: Matcher, ctx: Context)
    requires RegularGrammar(g, coll) && Regular(g, coll, m) && Kinded(coll, ctx.bindings)
    ensures !MeetsFault(g, m, ctx) && forall n :: !Run(g, n, m, ctx).Raised?
    ensures Terminating(g) && RepeatsConsume(g, m) ==> Returns(g, m, ctx)
  {
    forall e ensures !Meets(g, m, ctx, Fault(e)) {
      forall p ensures !Sees(g, m, ctx, p, Fault(e)) {
        NoFault(g, coll, m, ctx, p, e);
      }
    }
    hide Run, Meets, Sees;
    forall n ensures !Run(g, n, m, ctx).Raised? {
      if Run(g, n, m, ctx).Raised? {
        RaisesExactly(g, n, m, ctx);
      }
    }
    if Terminating(g) && RepeatsConsume(g, m) {
      TerminatingEnds(g, m, ctx);
      ReturnsExactly(g, m, ctx);
    }
  }

  // ----- the language of a rule -----

  ghost predicate InLanguage(g: Grammar, start: string, toks: seq<Token>) {
    start in g.rules && exists t :: Derives(g, g.rules[start], t) && Yield(t) == toks
  }

  lemma PrefixParts(a: seq<Token>, r: seq<Token>)
    requires a <= r
    ensures r == a + r[|a|..]
  {}

  /** Nothing is lost along the way: tokens only move from the remainder to the
      matched part, and production name and source text are as before. */
  lemma Conserved(g: Grammar, n: nat, m: Matcher, ctx: Context, x: Context)
    requires Run(g, n, m, ctx).Done? && x in Run(g, n, m, ctx).found
    ensures x.matched + x.remainder == ctx.matched + ctx.remainder
    ensures ctx.matched <= x.matched
    ensures x.production == ctx.production && x.src == ctx.src && x.hasSrc == ctx.hasSrc
  {
    var t := Soundness(g, n, m, ctx, x);
    AdvanceConserves(ctx, Yield(t), Events(t));
  }

  lemma AdvanceConserves(ctx: Context, toks: seq<Token>, evs: seq<Event>)
    requires toks <= ctx.remainder
    ensures var x := Advance(ctx, toks, evs); x.matched + x.remainder == ctx.matched + ctx.remainder
  {
    hide Update;
    PrefixParts(toks, ctx.remainder);
    assert ctx.matched + toks + ctx.remainder[|toks|..] == ctx.matched + (toks + ctx.remainder[|toks|..]);
  }

  /** Some context without remainder is found exactly for the tokens of the language. */
  lemma WholeMatchExactly(g: Grammar, n: nat, start: string, ctx: Context)
    requires start in g.rules && Run(g, n, g.rules[start], ctx).Done?
    ensures var found := Run(g, n, g.rules[start], ctx).found;
            (exists x :: x in found && x.remainder == []) <==> InLanguage(g, start, ctx.remainder)
  {
    var m := g.rules[start];
    var found := Run(g, n, m, ctx).found;
    if x :| x in found && x.remainder == [] {
      var t := Soundness(g, n, m, ctx, x);
      PrefixParts(Yield(t), ctx.remainder);
    }
    if t :| Derives(g, m, t) && Yield(t) == ctx.remainder {
      Completeness(g, n, m, ctx, t);
      assert After(ctx, t).remainder == [];
    }
  }
}
