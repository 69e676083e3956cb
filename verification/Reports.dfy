/** What a match meets besides contexts: the terminals that could come next, the
    errors it raises and the loops it falls into. A path is a derivation cut off at
    the point where that happens. */
module Reports {
  import opened Matchers
  import opened Derivations
  import opened Loops

  datatype Sight = Offer(item: Completion) | Fault(error: MatchError) | Trap

  datatype Path =
    | Here
    | Into(sub: Path)
    | Via(index: nat, sub: Path)
    | Past(done: seq<Tree>, sub: Path)
    | Clash(tree: Tree)

  /** From `ctx`, does `m` come upon `s` at the end of path `p`? */
  ghost predicate Sees(g: Grammar, m: Matcher, ctx: Context, p: Path, s: Sight)
    decreases p
  {
    match m
    case Term(t) => p.Here? && ctx.remainder == [] && s == Offer(TermOffer(g, t, ctx.production))
    case TermType(_, t) => p.Here? && ctx.remainder == [] && s == Offer(TermOffer(g, t, ctx.production))
    case Bare(name) => p.Here? && s == Fault(NotAMatcher(name))
    case Choice(alts) => p.Via? && p.index < |alts| && Sees(g, alts[p.index], ctx, p.sub, s)
    case OneOrNone(body) => p.Into? && Sees(g, body, ctx, p.sub, s)
    case Repeat(body) =>
      || (p.Here? && s.Trap? && Endless(g, m))
      || (&& p.Past? && DerivesEach(g, body, p.done) && Yields(p.done) <= ctx.remainder
          && Sees(g, body, AfterAll(ctx, p.done), p.sub, s))
    case RuleReference(r) =>
      if r !in g.rules then p.Here? && s == Fault(UnknownRule(r))
      else if p.Here? then s.Trap? && Endless(g, m)
      else p.Into? && Sees(g, g.rules[r], ctx.(production := r), p.sub, s)
    case RuleSeries(ps) =>
      && p.Past? && |p.done| < |ps|
      && DerivesSeries(g, ps[..|p.done|], p.done) && Yields(p.done) <= ctx.remainder
      && Sees(g, ps[|p.done|], AfterAll(ctx, p.done), p.sub, s)
    case Capture(name, collects, body) =>
      match p
      case Clash(t) =>
        && Derives(g, body, t) && Yield(t) <= ctx.remainder
        && Clashes(After(ctx, t).bindings, name, collects) && s == Fault(MixedBinding(name))
      case Here =>
        && Intercepted(g, ctx, name) && s.Offer?
        && s.item in g.completers[(ctx.production, name)](ctx)
      case Into(sub) => (Intercepted(g, ctx, name) ==> !s.Offer?) && Sees(g, body, ctx, sub, s)
      case _ => false
  }

  ghost predicate Reported(o: Outcome, s: Sight) {
    match o
    case Done(_, offers) => s.Offer? && s.item in offers
    case Raised(error) => s == Fault(error)
    case Pending => false
  }

  // ----- whatever is seen is reported -----

  lemma {:induction false} SeenIsReported(g: Grammar, n: nat, m: Matcher, ctx: Context, p: Path, s: Sight)
    requires Sees(g, m, ctx, p, s)
    ensures Run(g, n, m, ctx).Done? ==> Reported(Run(g, n, m, ctx), s)
    decreases p, 1
  {
    if Run(g, n, m, ctx).Done? {
      match m
      case Term(t) =>
      case TermType(_, t) =>
      case Bare(_) =>
      case Choice(alts) =>
        AltsMember(g, n, alts, ctx, p.index);
        SeenIsReported(g, n, alts[p.index], ctx, p.sub, s);
      case OneOrNone(body) =>
        SeenIsReported(g, n, body, ctx, p.sub, s);
      case Repeat(body) =>
        if p.Here? {
          EndlessNeverReturns(g, n, m, ctx);
        } else {
          SeenInRepeat(g, n, m, [ctx], ctx, p.done, p.sub, s);
        }
      case RuleReference(r) =>
        if p.Here? {
          EndlessNeverReturns(g, n, m, ctx);
        } else {
          SeenIsReported(g, n - 1, g.rules[r], ctx.(production := r), p.sub, s);
        }
      case RuleSeries(ps) =>
        SeenInSeries(g, n, ps, [ctx], ctx, p.done, p.sub, s);
      case Capture(name, collects, body) =>
        SeenInCapture(g, n, m, ctx, p, s);
    }
  }

  lemma {:induction false} SeenInCapture(g: Grammar, n: nat, m: Matcher, ctx: Context, p: Path, s: Sight)
    requires m.Capture?
    requires Sees(g, m, ctx, p, s) && Run(g, n, m, ctx).Done?
    ensures Reported(Run(g, n, m, ctx), s)
    decreases p, 0
  {
    var inner := Run(g, n, m.body, ctx);
    BindEachMembers(ctx, m.name, m.collects, inner.found);
    if p.Into? {
      SeenIsReported(g, n, m.body, ctx, p.sub, s);
    } else if p.Clash? {
      Completeness(g, n, m.body, ctx, p.tree);
      assert false;
    }
  }

  /** How reports travel up: from a context to the list it is in, from a step to the
      whole series or repeat, and from what comes after the step. */
  lemma ReportsUp(g: Grammar, n: nat, m: Matcher, ctxs: seq<Context>, c0: Context, s: Sight)
    requires c0 in ctxs
    requires RunAll(g, n, m, ctxs).Done?
    ensures Run(g, n, m, c0).Done?
    ensures Reported(Run(g, n, m, c0), s) ==> Reported(RunAll(g, n, m, ctxs), s)
    ensures forall x | x in Run(g, n, m, c0).found :: x in RunAll(g, n, m, ctxs).found
  {
    AllMember(g, n, m, ctxs, c0);
  }

  lemma RepeatParts(g: Grammar, n: nat, m: Matcher, frontier: seq<Context>, s: Sight)
    requires m.Repeat?
    requires RunRepeat(g, n, m, frontier).Done?
    ensures var step := RunAll(g, n, m.body, frontier);
            && step.Done? && (Reported(step, s) ==> Reported(RunRepeat(g, n, m, frontier), s))
            && (step.found != [] ==>
                  && n > 0 && RunRepeat(g, n - 1, m, step.found).Done?
                  && (Reported(RunRepeat(g, n - 1, m, step.found), s) ==> Reported(RunRepeat(g, n, m, frontier), s)))
  {}

  lemma SeriesParts(g: Grammar, n: nat, ps: seq<Matcher>, ctxs: seq<Context>, s: Sight)
    requires ps != []
    requires RunSeries(g, n, ps, ctxs).Done?
    ensures var step := RunAll(g, n, ps[0], ctxs);
            && step.Done? && (Reported(step, s) ==> Reported(RunSeries(g, n, ps, ctxs), s))
            && (step.found != [] ==>
                  && RunSeries(g, n, ps[1..], step.found).Done?
                  && (Reported(RunSeries(g, n, ps[1..], step.found), s) ==> Reported(RunSeries(g, n, ps, ctxs), s)))
  {}

  lemma {:induction false} SeenInRepeat(g: Grammar, n: nat, m: Matcher, frontier: seq<Context>,
                                        c0: Context, done: seq<Tree>, p: Path, s: Sight)
    requires m.Repeat? && c0 in frontier
    requires DerivesEach(g, m.body, done) && Yields(done) <= c0.remainder
    requires Sees(g, m.body, AfterAll(c0, done), p, s)
    requires RunRepeat(g, n, m, frontier).Done?
    ensures Reported(RunRepeat(g, n, m, frontier), s)
    decreases p, 2 + |done|
  {
    RepeatParts(g, n, m, frontier, s);
    ReportsUp(g, n, m.body, frontier, c0, s);
    if done == [] {
      AdvanceNothing(c0);
      SeenIsReported(g, n, m.body, c0, p, s);
    } else {
      PeelOne(c0, done);
      hide *;
      Completeness(g, n, m.body, c0, done[0]);
      SeenInRepeat(g, n - 1, m, RunAll(g, n, m.body, frontier).found, After(c0, done[0]), done[1..], p, s);
    }
  }

  lemma NoneAfter(c0: Context)
    ensures AfterAll(c0, []) == c0
  {
    AdvanceNothing(c0);
  }

  /** The first tree of a path through a series, and the path behind it. */
  lemma PopPath(g: Grammar, ps: seq<Matcher>, c0: Context, done: seq<Tree>, p: Path, s: Sight)
    requires done != [] && |done| < |ps| && DerivesSeries(g, ps[..|done|], done) && Yields(done) <= c0.remainder
    requires Sees(g, ps[|done|], AfterAll(c0, done), p, s)
    ensures Derives(g, ps[0], done[0]) && Yield(done[0]) <= c0.remainder
    ensures var rest, c1 := done[1..], After(c0, done[0]);
            && DerivesSeries(g, ps[1..][..|rest|], rest) && Yields(rest) <= c1.remainder
            && Sees(g, ps[1..][|rest|], AfterAll(c1, rest), p, s)
  {
    PeelOne(c0, done);
    assert ps[..|done|][1..] == ps[1..][..|done[1..]|];
  }

  lemma {:induction false} SeenInSeries(g: Grammar, n: nat, ps: seq<Matcher>, ctxs: seq<Context>,
                                        c0: Context, done: seq<Tree>, p: Path, s: Sight)
    requires c0 in ctxs
    requires |done| < |ps| && DerivesSeries(g, ps[..|done|], done) && Yields(done) <= c0.remainder
    requires Sees(g, ps[|done|], AfterAll(c0, done), p, s)
    requires RunSeries(g, n, ps, ctxs).Done?
    ensures Reported(RunSeries(g, n, ps, ctxs), s)
    decreases p, 2 + |done|
  {
    hide *;
    SeriesParts(g, n, ps, ctxs, s);
    ReportsUp(g, n, ps[0], ctxs, c0, s);
    if done == [] {
      NoneAfter(c0);
      SeenIsReported(g, n, ps[0], c0, p, s);
    } else {
      PopPath(g, ps, c0, done, p, s);
      Completeness(g, n, ps[0], c0, done[0]);
      SeenInSeries(g, n, ps[1..], RunAll(g, n, ps[0], ctxs).found, After(c0, done[0]), done[1..], p, s);
    }
  }

  // ----- whatever is reported can be seen -----

  lemma {:induction false} ReportedIsSeen(g: Grammar, n: nat, m: Matcher, ctx: Context, s: Sight)
    returns (p: Path)
    requires Reported(Run(g, n, m, ctx), s)
    ensures Sees(g, m, ctx, p, s)
    decreases n, m, 1
  {
    match m
    case Term(t) => p := Here;
    case TermType(_, t) => p := Here;
    case Bare(_) => p := Here;
    case Choice(alts) =>
      var i, sub := ReportedByAlts(g, n, alts, ctx, s);
      p := Via(i, sub);
    case OneOrNone(body) =>
      var sub := ReportedIsSeen(g, n, body, ctx, s);
      p := Into(sub);
    case Repeat(body) =>
      var c0, done, sub := ReportedByRepeat(g, n, m, [ctx], s);
      p := Past(done, sub);
    case RuleReference(r) =>
      if r in g.rules {
        var sub := ReportedIsSeen(g, n - 1, g.rules[r], ctx.(production := r), s);
        p := Into(sub);
      } else {
        p := Here;
      }
    case RuleSeries(ps) =>
      var c0, done, sub := ReportedBySeries(g, n, ps, [ctx], s);
      p := Past(done, sub);
    case Capture(name, collects, body) =>
      p := ReportedByCapture(g, n, m, ctx, s);
  }

  lemma {:induction false} ReportedByCapture(g: Grammar, n: nat, m: Matcher, ctx: Context, s: Sight)
    returns (p: Path)
    requires m.Capture?
    requires Reported(Run(g, n, m, ctx), s)
    ensures Sees(g, m, ctx, p, s)
    decreases n, m, 0
  {
    var inner := Run(g, n, m.body, ctx);
    if !inner.Done? {
      var sub := ReportedIsSeen(g, n, m.body, ctx, s);
      p := Into(sub);
    } else if s.Fault? {
      BindEachMembers(ctx, m.name, m.collects, inner.found);
      FirstClash(ctx, m.name, m.collects, inner.found);
      var y :| y in inner.found && Clashes(y.bindings, m.name, m.collects);
      var t := Soundness(g, n, m.body, ctx, y);
      p := Clash(t);
    } else if Intercepted(g, ctx, m.name) {
      p := Here;
    } else {
      var sub := ReportedIsSeen(g, n, m.body, ctx, s);
      p := Into(sub);
    }
  }

  lemma FirstClash(ctx: Context, name: string, collects: bool, found: seq<Context>)
    ensures var b := BindEach(ctx, name, collects, found); b.Raised? ==> b.error == MixedBinding(name)
  {}

  lemma {:induction false} ReportedByAlts(g: Grammar, n: nat, alts: seq<Matcher>, ctx: Context, s: Sight)
    returns (i: nat, p: Path)
    requires Reported(RunAlts(g, n, alts, ctx), s)
    ensures i < |alts| && Sees(g, alts[i], ctx, p, s)
    decreases n, alts, 0
  {
    if Reported(Run(g, n, alts[0], ctx), s) {
      i := 0;
      p := ReportedIsSeen(g, n, alts[0], ctx, s);
    } else {
      i, p := ReportedByAlts(g, n, alts[1..], ctx, s);
      i := i + 1;
    }
  }

  lemma {:induction false} ReportedByAll(g: Grammar, n: nat, m: Matcher, ctxs: seq<Context>, s: Sight)
    returns (c0: Context, p: Path)
    requires Reported(RunAll(g, n, m, ctxs), s)
    ensures c0 in ctxs && Sees(g, m, c0, p, s)
    decreases n, m, 2 + |ctxs|
  {
    assert ctxs[0] in ctxs;
    if Reported(Run(g, n, m, ctxs[0]), s) {
      c0 := ctxs[0];
      p := ReportedIsSeen(g, n, m, c0, s);
    } else {
      c0, p := ReportedByAll(g, n, m, ctxs[1..], s);
    }
  }

  /** What a series reports, its first piece reports or a later one does. */
  lemma LaterPiece(g: Grammar, n: nat, ps: seq<Matcher>, ctxs: seq<Context>, s: Sight)
    requires Reported(RunSeries(g, n, ps, ctxs), s)
    ensures ps != []
    ensures var step := RunAll(g, n, ps[0], ctxs);
            !Reported(step, s) ==> step.Done? && Reported(RunSeries(g, n, ps[1..], step.found), s)
  {
    assert ps != [];
  }

  lemma {:induction false} ReportedBySeries(g: Grammar, n: nat, ps: seq<Matcher>, ctxs: seq<Context>, s: Sight)
    returns (c0: Context, done: seq<Tree>, p: Path)
    requires Reported(RunSeries(g, n, ps, ctxs), s)
    ensures c0 in ctxs && |done| < |ps|
    ensures DerivesSeries(g, ps[..|done|], done) && Yields(done) <= c0.remainder
    ensures Sees(g, ps[|done|], AfterAll(c0, done), p, s)
    decreases n, ps, 0
  {
    hide *;
    LaterPiece(g, n, ps, ctxs, s);
    var step := RunAll(g, n, ps[0], ctxs);
    if Reported(step, s) {
      c0, p := ReportedByAll(g, n, ps[0], ctxs, s);
      done := [];
      FirstPath(g, ps, c0, p, s);
    } else {
      var c1, rest;
      c1, rest, p := ReportedBySeries(g, n, ps[1..], step.found, s);
      var t;
      c0, t := SoundAll(g, n, ps[0], ctxs, c1);
      done := [t] + rest;
      PushPath(g, ps, c0, c1, t, rest, p, s);
    }
  }

  lemma FirstPath(g: Grammar, ps: seq<Matcher>, c0: Context, p: Path, s: Sight)
    requires ps != [] && Sees(g, ps[0], c0, p, s)
    ensures DerivesSeries(g, ps[..0], []) && Yields([]) <= c0.remainder
    ensures Sees(g, ps[0], AfterAll(c0, []), p, s)
  {
    AdvanceNothing(c0);
  }

  /** A tree in front of a path through the rest of a series. */
  lemma PushPath(g: Grammar, ps: seq<Matcher>, c0: Context, c1: Context, t: Tree, rest: seq<Tree>, p: Path, s: Sight)
    requires |rest| + 1 < |ps| && Reaches(g, ps[0], c0, t, c1)
    requires DerivesSeries(g, ps[1..][..|rest|], rest) && Yields(rest) <= c1.remainder
    requires Sees(g, ps[1..][|rest|], AfterAll(c1, rest), p, s)
    ensures var done := [t] + rest;
            && |done| < |ps| && DerivesSeries(g, ps[..|done|], done) && Yields(done) <= c0.remainder
            && Sees(g, ps[|done|], AfterAll(c0, done), p, s)
  {
    var done := [t] + rest;
    PushOne(c0, t, rest);
    assert done[1..] == rest && ps[..|done|][1..] == ps[1..][..|rest|];
  }

  lemma {:induction false} ReportedByRepeat(g: Grammar, n: nat, m: Matcher, frontier: seq<Context>, s: Sight)
    returns (c0: Context, done: seq<Tree>, p: Path)
    requires m.Repeat?
    requires Reported(RunRepeat(g, n, m, frontier), s)
    ensures c0 in frontier
    ensures DerivesEach(g, m.body, done) && Yields(done) <= c0.remainder
    ensures Sees(g, m.body, AfterAll(c0, done), p, s)
    decreases n, m, 0
  {
    var step := RunAll(g, n, m.body, frontier);
    if Reported(step, s) {
      c0, p := ReportedByAll(g, n, m.body, frontier, s);
      done := [];
      AdvanceNothing(c0);
    } else {
      var c1, rest;
      c1, rest, p := ReportedByRepeat(g, n - 1, m, step.found, s);
      var t;
      c0, t := SoundAll(g, n, m.body, frontier, c1);
      done := [t] + rest;
      PushOne(c0, t, rest);
    }
  }

  // ----- the two main results -----

  /** Some path from `ctx` leads to `s`. */
  ghost predicate Meets(g: Grammar, m: Matcher, ctx: Context, s: Sight) {
    exists p :: Sees(g, m, ctx, p, s)
  }

  /** What was met is reported by a match that returns, so errors and loops are not
      met; what is reported was met. */
  lemma ReportsExactly(g: Grammar, n: nat, m: Matcher, ctx: Context, s: Sight)
    ensures Run(g, n, m, ctx).Done? && Meets(g, m, ctx, s) ==> Reported(Run(g, n, m, ctx), s)
    ensures Reported(Run(g, n, m, ctx), s) ==> Meets(g, m, ctx, s)
  {
    if Run(g, n, m, ctx).Done? && Meets(g, m, ctx, s) {
      var p :| Sees(g, m, ctx, p, s);
      SeenIsReported(g, n, m, ctx, p, s);
    }
    if Reported(Run(g, n, m, ctx), s) {
      var p := ReportedIsSeen(g, n, m, ctx, s);
    }
  }

  ghost predicate MeetsFault(g: Grammar, m: Matcher, ctx: Context) {
    exists e :: Meets(g, m, ctx, Fault(e))
  }

  /** A match that ends raises exactly when some path leads to an unknown rule, to a
      collector that meets a plain binding or to a stray JUNK token; and it raises such
      an error. */
  lemma RaisesExactly(g: Grammar, n: nat, m: Matcher, ctx: Context)
    requires !Run(g, n, m, ctx).Pending?
    ensures Run(g, n, m, ctx).Raised? <==> MeetsFault(g, m, ctx)
    ensures Run(g, n, m, ctx).Raised? ==> Meets(g, m, ctx, Fault(Run(g, n, m, ctx).error))
  {
    hide Run, Meets;
    var o := Run(g, n, m, ctx);
    if o.Raised? {
      ReportsExactly(g, n, m, ctx, Fault(o.error));
    }
    forall e | Meets(g, m, ctx, Fault(e)) ensures o.Raised? {
      ReportsExactly(g, n, m, ctx, Fault(e));
    }
  }

  /** The completions offered are exactly the terminals that some derivation,
      cut off where the tokens end, would need next. */
  lemma OffersExactly(g: Grammar, n: nat, m: Matcher, ctx: Context, x: Completion)
    requires Run(g, n, m, ctx).Done?
    ensures x in Run(g, n, m, ctx).offers <==> Meets(g, m, ctx, Offer(x))
  {
    hide Run, Meets;
    ReportsExactly(g, n, m, ctx, Offer(x));
  }

  // ----- terminals and completers -----

  /** A terminal is offered where the tokens have run out: a literal by its text, which it
      would then take, a regular expression by the production it stands in. */
  lemma TerminalOffers(g: Grammar, m: Matcher, ctx: Context, x: Completion)
    requires m.Term? || m.TermType?
    ensures var t := if m.Term? then m.term else m.sub;
            && (Meets(g, m, ctx, Offer(x)) <==>
                  && ctx.remainder == []
                  && x == (if t.Regex? then Hint("<" + ctx.production + ">") else Literal(g.literal(t.lit))))
            && (x.Literal? && Meets(g, m, ctx, Offer(x)) ==>
                  forall tok: Token | tok.text == x.text :: TermAccepts(g, t, tok))
  {
    var t := if m.Term? then m.term else m.sub;
    if ctx.remainder == [] {
      assert Sees(g, m, ctx, Here, Offer(TermOffer(g, t, ctx.production)));
    }
  }

  /** Where the tokens have run out, a completer registered for this production and name
      answers in place of what is captured. */
  lemma CaptureOffers(g: Grammar, m: Matcher, ctx: Context, x: Completion)
    requires m.Capture?
    ensures Meets(g, m, ctx, Offer(x)) <==>
              if ctx.remainder == [] && (ctx.production, m.name) in g.completers
              then x in g.completers[(ctx.production, m.name)](ctx)
              else Meets(g, m.body, ctx, Offer(x))
  {
    if Meets(g, m, ctx, Offer(x)) {
      var p :| Sees(g, m, ctx, p, Offer(x));
      assert p.Into? ==> Sees(g, m.body, ctx, p.sub, Offer(x));
    }
    if ctx.remainder == [] && (ctx.production, m.name) in g.completers {
      assert x in g.completers[(ctx.production, m.name)](ctx) ==> Sees(g, m, ctx, Here, Offer(x));
    } else if Meets(g, m.body, ctx, Offer(x)) {
      var p :| Sees(g, m.body, ctx, p, Offer(x));
      assert Sees(g, m, ctx, Into(p), Offer(x));
    }
  }

  /** Where what is captured meets no error, the capture does exactly when it collects and
      its name can by then be bound to a plain string. */
  lemma CaptureFails(g: Grammar, m: Matcher, ctx: Context, e: MatchError)
    requires m.Capture? && !Meets(g, m.body, ctx, Fault(e))
    ensures Meets(g, m, ctx, Fault(e)) <==>
              && e == MixedBinding(m.name) && m.collects
              && exists t ::
                   && Derives(g, m.body, t) && Yield(t) <= ctx.remainder
                   && var b := After(ctx, t).bindings; m.name in b && b[m.name].Single?
  {
    hide After;
    if Meets(g, m, ctx, Fault(e)) {
      var p :| Sees(g, m, ctx, p, Fault(e));
      assert p.Into? ==> Sees(g, m.body, ctx, p.sub, Fault(e));
    }
    forall t | Derives(g, m.body, t) && Yield(t) <= ctx.remainder
      ensures Clashes(After(ctx, t).bindings, m.name, m.collects) ==>
                Sees(g, m, ctx, Clash(t), Fault(MixedBinding(m.name)))
    {}
  }

  /** Literals take the tokens that spell them, those without `@` in any case. */
  lemma TakesExactly(g: Grammar, m: Matcher, tok: Token)
    requires m.Term? || m.TermType?
    ensures m.TermType? ==> (Takes(g, m, tok) <==> tok.kind == m.kind)
    ensures m.Term? && m.term.Regex? ==> (Takes(g, m, tok) <==> g.accepts(m.term.pat, tok.text))
    ensures m.Term? && m.term.Case? ==> (Takes(g, m, tok) <==> tok.text == g.literal(m.term.lit))
    ensures m.Term? && (m.term.Text? || m.term.Word?) ==>
              (Takes(g, m, tok) <==> SameText(g.literal(m.term.lit), tok.text))
  {
    if m.Term? && (m.term.Text? || m.term.Word?) {
      LowerMeans(g.literal(m.term.lit));
    }
  }
}
