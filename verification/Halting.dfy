/** When a match ends. Nothing is assumed of the grammar or the input. */
module Halting {
  import opened Matchers
  import opened Derivations
  import opened Loops
  import opened Reports

  // ----- more time changes nothing -----

  lemma {:induction false} MoreTime(g: Grammar, n: nat, k: nat, m: Matcher, ctx: Context)
    requires n <= k && !Run(g, n, m, ctx).Pending?
    ensures Run(g, k, m, ctx) == Run(g, n, m, ctx)
    decreases n, m, 1
  {
    match m
    case Term(_) =>
    case TermType(_, _) =>
    case Bare(_) =>
    case Choice(alts) => MoreForAlts(g, n, k, alts, ctx);
    case OneOrNone(body) => MoreTime(g, n, k, body, ctx);
    case Repeat(body) => MoreForRepeat(g, n, k, m, [ctx]);
    case RuleReference(r) =>
      if r in g.rules {
        MoreTime(g, n - 1, k - 1, g.rules[r], ctx.(production := r));
      }
    case RuleSeries(ps) => MoreForSeries(g, n, k, ps, [ctx]);
    case Capture(_, _, body) => MoreTime(g, n, k, body, ctx);
  }

  lemma {:induction false} MoreForAlts(g: Grammar, n: nat, k: nat, alts: seq<Matcher>, ctx: Context)
    requires n <= k && !RunAlts(g, n, alts, ctx).Pending?
    ensures RunAlts(g, k, alts, ctx) == RunAlts(g, n, alts, ctx)
    decreases n, alts, 0
  {
    if alts == [] {
    } else {
      MoreTime(g, n, k, alts[0], ctx);
      if Run(g, n, alts[0], ctx).Done? {
        MoreForAlts(g, n, k, alts[1..], ctx);
      }
    }
  }

  lemma {:induction false} MoreForAll(g: Grammar, n: nat, k: nat, m: Matcher, ctxs: seq<Context>)
    requires n <= k && !RunAll(g, n, m, ctxs).Pending?
    ensures RunAll(g, k, m, ctxs) == RunAll(g, n, m, ctxs)
    decreases n, m, 2 + |ctxs|
  {
    if ctxs == [] {
    } else {
      MoreTime(g, n, k, m, ctxs[0]);
      if Run(g, n, m, ctxs[0]).Done? {
        MoreForAll(g, n, k, m, ctxs[1..]);
      }
    }
  }

  lemma {:induction false} MoreForSeries(g: Grammar, n: nat, k: nat, ps: seq<Matcher>, ctxs: seq<Context>)
    requires n <= k && !RunSeries(g, n, ps, ctxs).Pending?
    ensures RunSeries(g, k, ps, ctxs) == RunSeries(g, n, ps, ctxs)
    decreases n, ps, 0
  {
    if ps == [] {
    } else {
      MoreForAll(g, n, k, ps[0], ctxs);
      var step := RunAll(g, n, ps[0], ctxs);
      if step.Done? && step.found != [] {
        MoreForSeries(g, n, k, ps[1..], step.found);
      }
    }
  }

  lemma {:induction false} MoreForRepeat(g: Grammar, n: nat, k: nat, m: Matcher, frontier: seq<Context>)
    requires m.Repeat? && n <= k && !RunRepeat(g, n, m, frontier).Pending?
    ensures RunRepeat(g, k, m, frontier) == RunRepeat(g, n, m, frontier)
    decreases n, m, 0
  {
    MoreForAll(g, n, k, m.body, frontier);
    var step := RunAll(g, n, m.body, frontier);
    if step.Done? && step.found != [] {
      MoreForRepeat(g, n - 1, k - 1, m, step.found);
    }
  }

  // ----- the rules that can be reached before a token is matched -----

  ghost function Under(g: Grammar, m: Matcher): set<string> {
    set q | q in g.rules && exists h :: h in Heads(g, m) && (h == q || StartsDeep(g, h, q))
  }

  lemma SubsetSize<T>(a: set<T>, b: set<T>)
    requires a <= b
    ensures |a| <= |b| && (a != b ==> |a| < |b|)
  {
    assert b == a + (b - a);
  }

  lemma UnderPart(g: Grammar, a: Matcher, b: Matcher)
    requires Heads(g, a) <= Heads(g, b)
    ensures |Under(g, a)| <= |Under(g, b)|
  {
    SubsetSize(Under(g, a), Under(g, b));
  }

  lemma Link(g: Grammar, r: string, h: string, q: string)
    requires StartsWith(g, r, h) && (h == q || StartsDeep(g, h, q))
    ensures StartsDeep(g, r, q)
  {
    var ns := [h];
    if h != q {
      ns :| Chain(g, ns) && ns[0] == h && ns[|ns| - 1] == q;
    }
    var longer := [r] + ns;
    forall i | 0 <= i < |longer| - 1 ensures StartsWith(g, longer[i], longer[i + 1]) {
      if i > 0 {
        assert StartsWith(g, ns[i - 1], ns[i]);
      }
    }
    assert Chain(g, longer);
  }

  /** A rule that does not start with itself has fewer rules under it than a
      reference to it. */
  lemma UnderRule(g: Grammar, r: string)
    requires r in g.rules && !StartsDeep(g, r, r)
    ensures |Under(g, g.rules[r])| < |Under(g, RuleReference(r))|
  {
    forall q | q in Under(g, g.rules[r]) ensures q in Under(g, RuleReference(r)) && q != r {
      var h :| h in Heads(g, g.rules[r]) && (h == q || StartsDeep(g, h, q));
      Link(g, r, h, q);
      assert r in Heads(g, RuleReference(r));
    }
    assert r in Heads(g, RuleReference(r)) && r in Under(g, RuleReference(r));
    SubsetSize(Under(g, g.rules[r]), Under(g, RuleReference(r)));
  }

  // ----- traps inside a matcher are traps of the matcher -----

  lemma TrapUp(g: Grammar, m: Matcher, ctx: Context)
    ensures (m.OneOrNone? || m.Capture? || m.Repeat?) && Meets(g, m.body, ctx, Trap) ==> Meets(g, m, ctx, Trap)
    ensures m.RuleReference? && m.rule in g.rules && Meets(g, g.rules[m.rule], ctx.(production := m.rule), Trap) ==>
              Meets(g, m, ctx, Trap)
  {
    if (m.OneOrNone? || m.Capture? || m.Repeat?) && Meets(g, m.body, ctx, Trap) {
      var p :| Sees(g, m.body, ctx, p, Trap);
      AdvanceNothing(ctx);
      assert Sees(g, m, ctx, if m.Repeat? then Past([], p) else Into(p), Trap);
    }
    if m.RuleReference? && m.rule in g.rules && Meets(g, g.rules[m.rule], ctx.(production := m.rule), Trap) {
      var p :| Sees(g, g.rules[m.rule], ctx.(production := m.rule), p, Trap);
      assert Sees(g, m, ctx, Into(p), Trap);
    }
  }

  lemma TrapHere(g: Grammar, m: Matcher, ctx: Context)
    requires Endless(g, m) && (m.Repeat? || m.rule in g.rules)
    ensures Meets(g, m, ctx, Trap)
  {
    assert Sees(g, m, ctx, Here, Trap);
  }

  lemma TrapInAlts(g: Grammar, alts: seq<Matcher>, ctx: Context)
    requires alts != []
    ensures Meets(g, alts[0], ctx, Trap) || Meets(g, Choice(alts[1..]), ctx, Trap) ==> Meets(g, Choice(alts), ctx, Trap)
  {
    if Meets(g, alts[0], ctx, Trap) {
      var p :| Sees(g, alts[0], ctx, p, Trap);
      assert Sees(g, Choice(alts), ctx, Via(0, p), Trap);
    }
    if Meets(g, Choice(alts[1..]), ctx, Trap) {
      var p :| Sees(g, Choice(alts[1..]), ctx, p, Trap);
      assert Sees(g, Choice(alts), ctx, Via(p.index + 1, p.sub), Trap);
    }
  }

  lemma TrapFirst(g: Grammar, ps: seq<Matcher>, c0: Context)
    requires ps != [] && Meets(g, ps[0], c0, Trap)
    ensures Meets(g, RuleSeries(ps), c0, Trap)
  {
    var p :| Sees(g, ps[0], c0, p, Trap);
    FirstPath(g, ps, c0, p, Trap);
    assert Sees(g, RuleSeries(ps), c0, Past([], p), Trap);
  }

  lemma TrapLater(g: Grammar, ps: seq<Matcher>, c0: Context, t: Tree, x: Context)
    requires ps != [] && Reaches(g, ps[0], c0, t, x) && Meets(g, RuleSeries(ps[1..]), x, Trap)
    ensures Meets(g, RuleSeries(ps), c0, Trap)
  {
    var p :| Sees(g, RuleSeries(ps[1..]), x, p, Trap);
    PushPath(g, ps, c0, x, t, p.done, p.sub, Trap);
    assert Sees(g, RuleSeries(ps), c0, Past([t] + p.done, p.sub), Trap);
  }

  lemma TrapNextRound(g: Grammar, m: Matcher, c0: Context, t: Tree, x: Context)
    requires m.Repeat? && Reaches(g, m.body, c0, t, x) && Meets(g, m, x, Trap)
    ensures Meets(g, m, c0, Trap)
  {
    var p :| Sees(g, m, x, p, Trap);
    if p.Here? {
      TrapHere(g, m, c0);
    } else {
      PushOne(c0, t, p.done);
      assert ([t] + p.done)[1..] == p.done;
      assert Sees(g, m, c0, Past([t] + p.done, p.sub), Trap);
    }
  }

  // ----- without a trap the match ends -----

  /** The tokens left, and before the first of them the rules within reach, are bounded. */
  ghost predicate Bounded(g: Grammar, m: Matcher, ctx: Context, k: nat, d: nat) {
    !Meets(g, m, ctx, Trap) && |ctx.remainder| <= k && (|ctx.remainder| == k ==> |Under(g, m)| <= d)
  }

  lemma {:induction false} Ends(g: Grammar, m: Matcher, ctx: Context, k: nat, d: nat) returns (n: nat)
    requires Bounded(g, m, ctx, k, d)
    ensures !Run(g, n, m, ctx).Pending?
    decreases k, d, m, 1
  {
    hide Meets, Under, BindEach, RunAlts, RunSeries, RunRepeat, StartsDeep;
    n := 0;
    match m
    case Term(_) =>
    case TermType(_, _) =>
    case Bare(_) =>
    case Choice(alts) => n := EndsForAlts(g, alts, ctx, k, d);
    case OneOrNone(body) =>
      TrapUp(g, m, ctx);
      UnderPart(g, body, m);
      n := Ends(g, body, ctx, k, d);
    case Repeat(body) => n := EndsForRepeat(g, m, [ctx], k, d);
    case RuleReference(r) =>
      if r in g.rules {
        TrapUp(g, m, ctx);
        if StartsDeep(g, r, r) {
          TrapHere(g, m, ctx);
        }
        UnderRule(g, r);
        var inside := ctx.(production := r);
        n := Ends(g, g.rules[r], inside, |ctx.remainder|, |Under(g, g.rules[r])|);
        n := n + 1;
      }
    case RuleSeries(ps) => n := EndsForSeries(g, ps, [ctx], k, d);
    case Capture(_, _, body) =>
      TrapUp(g, m, ctx);
      UnderPart(g, body, m);
      n := Ends(g, body, ctx, k, d);
  }

  lemma {:induction false} EndsForAlts(g: Grammar, alts: seq<Matcher>, ctx: Context, k: nat, d: nat) returns (n: nat)
    requires Bounded(g, Choice(alts), ctx, k, d)
    ensures !RunAlts(g, n, alts, ctx).Pending?
    decreases k, d, alts, 0
  {
    n := 0;
    if alts != [] {
      TrapInAlts(g, alts, ctx);
      UnderPart(g, alts[0], Choice(alts));
      UnderPart(g, Choice(alts[1..]), Choice(alts));
      var first := Ends(g, alts[0], ctx, k, d);
      var rest := EndsForAlts(g, alts[1..], ctx, k, d);
      n := first + rest;
      MoreTime(g, first, n, alts[0], ctx);
      MoreForAlts(g, rest, n, alts[1..], ctx);
    }
  }

  lemma {:induction false} EndsForAll(g: Grammar, m: Matcher, ctxs: seq<Context>, k: nat, d: nat) returns (n: nat)
    requires forall c0 | c0 in ctxs :: Bounded(g, m, c0, k, d)
    ensures !RunAll(g, n, m, ctxs).Pending?
    decreases k, d, m, 2 + |ctxs|
  {
    n := 0;
    if ctxs != [] {
      assert ctxs[0] in ctxs;
      var first := Ends(g, m, ctxs[0], k, d);
      var rest := EndsForAll(g, m, ctxs[1..], k, d);
      n := first + rest;
      MoreTime(g, first, n, m, ctxs[0]);
      MoreForAll(g, rest, n, m, ctxs[1..]);
    }
  }

  lemma SeriesBounded(g: Grammar, ps: seq<Matcher>, c0: Context, k: nat, d: nat)
    requires ps != [] && Bounded(g, RuleSeries(ps), c0, k, d)
    ensures Bounded(g, ps[0], c0, k, d)
    ensures forall t, x | Reaches(g, ps[0], c0, t, x) :: Bounded(g, RuleSeries(ps[1..]), x, k, d)
  {
    if Meets(g, ps[0], c0, Trap) {
      TrapFirst(g, ps, c0);
    }
    UnderPart(g, ps[0], RuleSeries(ps));
    forall t, x | Reaches(g, ps[0], c0, t, x) ensures Bounded(g, RuleSeries(ps[1..]), x, k, d) {
      if Meets(g, RuleSeries(ps[1..]), x, Trap) {
        TrapLater(g, ps, c0, t, x);
      }
      if Yield(t) == [] {
        assert Vanishes(g, ps[0]);
        UnderPart(g, RuleSeries(ps[1..]), RuleSeries(ps));
      }
    }
  }

  lemma NextPieceBounded(g: Grammar, n: nat, ps: seq<Matcher>, ctxs: seq<Context>, k: nat, d: nat)
    requires ps != [] && forall c0 | c0 in ctxs :: Bounded(g, RuleSeries(ps), c0, k, d)
    ensures forall c0 | c0 in ctxs :: Bounded(g, ps[0], c0, k, d)
    ensures var step := RunAll(g, n, ps[0], ctxs);
            step.Done? ==> forall x | x in step.found :: Bounded(g, RuleSeries(ps[1..]), x, k, d)
  {
    hide Bounded, Reaches, Run, RunAll;
    forall c0 | c0 in ctxs ensures Bounded(g, ps[0], c0, k, d) {
      SeriesBounded(g, ps, c0, k, d);
    }
    var step := RunAll(g, n, ps[0], ctxs);
    if step.Done? {
      forall x | x in step.found ensures Bounded(g, RuleSeries(ps[1..]), x, k, d) {
        var c0, t := SoundAll(g, n, ps[0], ctxs, x);
        SeriesBounded(g, ps, c0, k, d);
      }
    }
  }

  lemma {:induction false} EndsForSeries(g: Grammar, ps: seq<Matcher>, ctxs: seq<Context>, k: nat, d: nat)
    returns (n: nat)
    requires forall c0 | c0 in ctxs :: Bounded(g, RuleSeries(ps), c0, k, d)
    ensures !RunSeries(g, n, ps, ctxs).Pending?
    decreases k, d, ps, 0
  {
    n := 0;
    if ps != [] {
      hide *;
      NextPieceBounded(g, 0, ps, ctxs, k, d);
      n := EndsForAll(g, ps[0], ctxs, k, d);
      var step := RunAll(g, n, ps[0], ctxs);
      if step.Done? && step.found != [] {
        NextPieceBounded(g, n, ps, ctxs, k, d);
        var rest := EndsForSeries(g, ps[1..], step.found, k, d);
        MoreForAll(g, n, n + rest, ps[0], ctxs);
        MoreForSeries(g, rest, n + rest, ps[1..], step.found);
        n := n + rest;
      }
      SeriesEnds(g, n, ps, ctxs);
    }
  }

  lemma SeriesEnds(g: Grammar, n: nat, ps: seq<Matcher>, ctxs: seq<Context>)
    requires ps != []
    ensures var step := RunAll(g, n, ps[0], ctxs);
            !step.Pending? && (step.Done? && step.found != [] ==> !RunSeries(g, n, ps[1..], step.found).Pending?) ==>
              !RunSeries(g, n, ps, ctxs).Pending?
  {}

  lemma RoundBounded(g: Grammar, m: Matcher, c0: Context, k: nat, d: nat)
    requires m.Repeat? && Bounded(g, m, c0, k, d)
    ensures Bounded(g, m.body, c0, k, d)
    ensures forall t, x | Reaches(g, m.body, c0, t, x) :: k > 0 && Bounded(g, m, x, k - 1, |Under(g, m)|)
  {
    TrapUp(g, m, c0);
    UnderPart(g, m.body, m);
    forall t, x | Reaches(g, m.body, c0, t, x) ensures k > 0 && Bounded(g, m, x, k - 1, |Under(g, m)|) {
      if Meets(g, m, x, Trap) {
        TrapNextRound(g, m, c0, t, x);
      }
      if Yield(t) == [] {
        TrapHere(g, m, c0);
      }
    }
  }

  lemma NextRoundBounded(g: Grammar, n: nat, m: Matcher, frontier: seq<Context>, k: nat, d: nat)
    requires m.Repeat? && forall c0 | c0 in frontier :: Bounded(g, m, c0, k, d)
    ensures forall c0 | c0 in frontier :: Bounded(g, m.body, c0, k, d)
    ensures var step := RunAll(g, n, m.body, frontier);
            step.Done? ==> forall x | x in step.found :: k > 0 && Bounded(g, m, x, k - 1, |Under(g, m)|)
  {
    hide Bounded, Reaches, Run, RunAll;
    forall c0 | c0 in frontier ensures Bounded(g, m.body, c0, k, d) {
      RoundBounded(g, m, c0, k, d);
    }
    var step := RunAll(g, n, m.body, frontier);
    if step.Done? {
      forall x | x in step.found ensures k > 0 && Bounded(g, m, x, k - 1, |Under(g, m)|) {
        var c0, t := SoundAll(g, n, m.body, frontier, x);
        RoundBounded(g, m, c0, k, d);
      }
    }
  }

  lemma {:induction false} EndsForRepeat(g: Grammar, m: Matcher, frontier: seq<Context>, k: nat, d: nat)
    returns (n: nat)
    requires m.Repeat? && forall c0 | c0 in frontier :: Bounded(g, m, c0, k, d)
    ensures !RunRepeat(g, n, m, frontier).Pending?
    decreases k, d, m, 0
  {
    hide *;
    NextRoundBounded(g, 0, m, frontier, k, d);
    n := EndsForAll(g, m.body, frontier, k, d);
    var step := RunAll(g, n, m.body, frontier);
    if step.Done? && step.found != [] {
      NextRoundBounded(g, n, m, frontier, k, d);
      assert step.found[0] in step.found;
      var rest := EndsForRepeat(g, m, step.found, k - 1, |Under(g, m)|);
      MoreForAll(g, n, n + rest + 1, m.body, frontier);
      MoreForRepeat(g, rest, n + rest, m, step.found);
      n := n + rest + 1;
    }
    RepeatEnds(g, n, m, frontier);
  }

  lemma RepeatEnds(g: Grammar, n: nat, m: Matcher, frontier: seq<Context>)
    requires m.Repeat?
    ensures var step := RunAll(g, n, m.body, frontier);
            !step.Pending? && (step.Done? && step.found != [] ==>
                                 n > 0 && !RunRepeat(g, n - 1, m, step.found).Pending?) ==>
              !RunRepeat(g, n, m, frontier).Pending?
  {}

  // ----- the main result -----

  ghost predicate Returns(g: Grammar, m: Matcher, ctx: Context) {
    exists n :: Run(g, n, m, ctx).Done?
  }

  /** For every grammar, matcher and context: the match returns exactly when no path
      leads to an error or into a loop. Without a loop it ends, one way or the other;
      with a loop and no error it never does. */
  lemma ReturnsExactly(g: Grammar, m: Matcher, ctx: Context)
    ensures Returns(g, m, ctx) <==> !Meets(g, m, ctx, Trap) && !MeetsFault(g, m, ctx)
    ensures !Meets(g, m, ctx, Trap) ==> Halts(g, m, ctx)
    ensures !MeetsFault(g, m, ctx) ==> (Halts(g, m, ctx) <==> !Meets(g, m, ctx, Trap))
  {
    hide Run, Meets, MeetsFault;
    forall n | !Run(g, n, m, ctx).Pending?
      ensures Run(g, n, m, ctx).Done? <==> !MeetsFault(g, m, ctx)
      ensures Run(g, n, m, ctx).Done? ==> !Meets(g, m, ctx, Trap)
    {
      RaisesExactly(g, n, m, ctx);
      ReportsExactly(g, n, m, ctx, Trap);
    }
    if !Meets(g, m, ctx, Trap) {
      var n := Ends(g, m, ctx, |ctx.remainder|, |Under(g, m)|);
    }
  }

  // ----- an error and a loop -----

  const IDLE := Repeat(RuleSeries([]))

  lemma {:induction false} IdleGoesOn(g: Grammar, n: nat, ctx: Context)
    ensures RunRepeat(g, n, IDLE, [ctx]) == Pending
  {
    assert RunSeries(g, n, [], [ctx]) == Done([ctx], {});
    assert [ctx][1..] == [] && [ctx] + [] == [ctx];
    assert RunAll(g, n, IDLE.body, [ctx]) == Done([ctx], {});
    if n > 0 {
      IdleGoesOn(g, n - 1, ctx);
    }
  }

  /** With both on the way, the match does not return, and the order of the alternatives
      decides whether it raises or never ends. */
  lemma OrderDecides(g: Grammar, n: nat, unknown: string, ctx: Context)
    requires unknown !in g.rules
    ensures Run(g, n, Choice([RuleReference(unknown), IDLE]), ctx).Raised?
    ensures Run(g, n, Choice([IDLE, RuleReference(unknown)]), ctx).Pending?
  {
    IdleGoesOn(g, n, ctx);
    assert RunAlts(g, n, [RuleReference(unknown), IDLE], ctx) == Raised(UnknownRule(unknown));
    assert RunAlts(g, n, [IDLE, RuleReference(unknown)], ctx) == Pending;
  }

  // ----- grammars on which every match ends -----

  /** Every repeat in `m` has a body that consumes something. */
  ghost predicate RepeatsConsume(g: Grammar, m: Matcher) {
    match m
    case Term(_) => true
    case TermType(_, _) => true
    case Bare(_) => true
    case Choice(alts) => RepeatsConsumeAll(g, alts)
    case OneOrNone(body) => RepeatsConsume(g, body)
    case Repeat(body) => RepeatsConsume(g, body) && !Vanishes(g, body)
    case RuleReference(_) => true
    case RuleSeries(ps) => RepeatsConsumeAll(g, ps)
    case Capture(_, _, body) => RepeatsConsume(g, body)
  }

  ghost predicate RepeatsConsumeAll(g: Grammar, ms: seq<Matcher>) {
    ms == [] || (RepeatsConsume(g, ms[0]) && RepeatsConsumeAll(g, ms[1..]))
  }

  lemma {:induction false} ConsumesMember(g: Grammar, ms: seq<Matcher>, i: nat)
    requires RepeatsConsumeAll(g, ms) && i < |ms|
    ensures RepeatsConsume(g, ms[i])
    decreases i
  {
    if i > 0 {
      ConsumesMember(g, ms[1..], i - 1);
    }
  }

  /** No left recursion, and no repeat over nothing. */
  ghost predicate Terminating(g: Grammar) {
    forall r | r in g.rules :: RepeatsConsume(g, g.rules[r]) && !StartsDeep(g, r, r)
  }

  lemma {:induction false} NoTrap(g: Grammar, m: Matcher, ctx: Context, p: Path)
    requires Terminating(g) && RepeatsConsume(g, m)
    ensures !Sees(g, m, ctx, p, Trap)
    decreases p
  {
    if Sees(g, m, ctx, p, Trap) {
      match m
      case Choice(alts) =>
        ConsumesMember(g, alts, p.index);
        NoTrap(g, alts[p.index], ctx, p.sub);
      case OneOrNone(body) => NoTrap(g, body, ctx, p.sub);
      case Repeat(body) => NoTrap(g, body, AfterAll(ctx, p.done), p.sub);
      case RuleReference(r) => NoTrap(g, g.rules[r], ctx.(production := r), p.sub);
      case RuleSeries(ps) =>
        ConsumesMember(g, ps, |p.done|);
        NoTrap(g, ps[|p.done|], AfterAll(ctx, p.done), p.sub);
      case Capture(_, _, body) => NoTrap(g, body, ctx, p.sub);
    }
  }

  /** Then every match ends, on every input. */
  lemma TerminatingEnds(g: Grammar, m: Matcher, ctx: Context)
    requires Terminating(g) && RepeatsConsume(g, m)
    ensures Halts(g, m, ctx)
  {
    forall p ensures !Sees(g, m, ctx, p, Trap) {
      NoTrap(g, m, ctx, p);
    }
    ReturnsExactly(g, m, ctx);
  }
}
