/** The order of what a match finds: one context for each fitting derivation, from the
    first derivation to the last. The first whole match is the first whole derivation. */
module Listings {
  import opened Matchers
  import opened Derivations

  /** Earlier alternatives come first, leaving out before taking, fewer rounds before
      more; otherwise the first parts in which two derivations differ decide. */
  ghost predicate Before(a: Tree, b: Tree)
    decreases a
  {
    match a
    case Leaf(_) => false
    case Picked(i, sub) => b.Picked? && (i < b.index || (i == b.index && Before(sub, b.sub)))
    case Skipped => b.Taken?
    case Taken(sub) => b.Taken? && Before(sub, b.sub)
    case Iterated(subs) =>
      b.Iterated? && (|subs| < |b.subs| || (|subs| == |b.subs| && BeforeAll(subs, b.subs)))
    case Expanded(sub) => b.Expanded? && Before(sub, b.sub)
    case InOrder(subs) => b.InOrder? && BeforeAll(subs, b.subs)
    case Captured(_, _, sub) => b.Captured? && Before(sub, b.sub)
  }

  ghost predicate BeforeAll(ts: seq<Tree>, us: seq<Tree>)
    decreases ts
  {
    exists k | 0 <= k < |ts| && k < |us| :: ts[..k] == us[..k] && Before(ts[k], us[k])
  }

  lemma {:induction false} BeforeStrict(a: Tree, b: Tree)
    ensures !(Before(a, b) && Before(b, a))
    decreases a
  {
    if Before(a, b) && Before(b, a) {
      match a
      case Picked(_, sub) => BeforeStrict(sub, b.sub);
      case Taken(sub) => BeforeStrict(sub, b.sub);
      case Expanded(sub) => BeforeStrict(sub, b.sub);
      case Captured(_, _, sub) => BeforeStrict(sub, b.sub);
      case Iterated(subs) => BeforeAllStrict(subs, b.subs);
      case InOrder(subs) => BeforeAllStrict(subs, b.subs);
    }
  }

  lemma {:induction false} BeforeAllStrict(ts: seq<Tree>, us: seq<Tree>)
    requires BeforeAll(ts, us)
    ensures !BeforeAll(us, ts)
    decreases ts
  {
    var k :| 0 <= k < |ts| && k < |us| && ts[..k] == us[..k] && Before(ts[k], us[k]);
    forall j | 0 <= j < |us| && j < |ts| && us[..j] == ts[..j] ensures !Before(us[j], ts[j]) {
      if j < k {
        assert ts[..k][j] == us[..k][j];
        BeforeStrict(ts[j], us[j]);
      } else if k < j {
        assert ts[..j][k] == us[..j][k];
        BeforeStrict(ts[k], us[k]);
      } else {
        BeforeStrict(ts[k], us[k]);
      }
    }
  }

  ghost predicate Sorted(ts: seq<Tree>) {
    forall i, j | 0 <= i < j < |ts| :: Before(ts[i], ts[j])
  }

  ghost predicate Fits(g: Grammar, m: Matcher, ctx: Context, t: Tree) {
    Derives(g, m, t) && Yield(t) <= ctx.remainder
  }

  /** `ts` are all derivations that fit, in order, and `found` the contexts behind them. */
  ghost predicate Lists(g: Grammar, m: Matcher, ctx: Context, ts: seq<Tree>, found: seq<Context>) {
    && |ts| == |found|
    && (forall i | 0 <= i < |ts| :: Reaches(g, m, ctx, ts[i], found[i]))
    && (forall t | Fits(g, m, ctx, t) :: t in ts)
    && Sorted(ts)
  }

  // ----- several steps -----

  ghost predicate ReachesAll(g: Grammar, ps: seq<Matcher>, ctx: Context, h: seq<Tree>, x: Context) {
    DerivesSeries(g, ps, h) && Yields(h) <= ctx.remainder && x == AfterAll(ctx, h)
  }

  ghost predicate SortedAll(hs: seq<seq<Tree>>) {
    forall i, j | 0 <= i < j < |hs| :: BeforeAll(hs[i], hs[j])
  }

  /** The same for the ways through a series. */
  ghost predicate ListsAll(g: Grammar, ps: seq<Matcher>, ctx: Context, hs: seq<seq<Tree>>, found: seq<Context>) {
    && |hs| == |found|
    && (forall i | 0 <= i < |hs| :: ReachesAll(g, ps, ctx, hs[i], found[i]))
    && (forall h | DerivesSeries(g, ps, h) && Yields(h) <= ctx.remainder :: h in hs)
    && SortedAll(hs)
  }

  lemma {:induction false} SeriesEnd(g: Grammar, ps: seq<Matcher>, m: Matcher, h: seq<Tree>, t: Tree)
    ensures DerivesSeries(g, ps + [m], h + [t]) <==> DerivesSeries(g, ps, h) && Derives(g, m, t)
    decreases |h|
  {
    if h == [] {
      assert h + [t] == [t];
      if ps == [] {
        assert ps + [m] == [m];
      }
    } else if ps != [] {
      assert (ps + [m])[1..] == ps[1..] + [m] && (h + [t])[1..] == h[1..] + [t];
      SeriesEnd(g, ps[1..], m, h[1..], t);
    }
  }

  lemma {:induction false} YieldsEnd(h: seq<Tree>, t: Tree)
    ensures Yields(h + [t]) == Yields(h) + Yield(t)
    ensures EventsOf(h + [t]) == EventsOf(h) + Events(t)
    decreases |h|
  {
    if h == [] {
      assert h + [t] == [t] && Yield(t) + [] == Yield(t) && Events(t) + [] == Events(t);
    } else {
      assert (h + [t])[1..] == h[1..] + [t];
      YieldsEnd(h[1..], t);
      assert Yield(h[0]) + (Yields(h[1..]) + Yield(t)) == Yield(h[0]) + Yields(h[1..]) + Yield(t);
      assert Events(h[0]) + (EventsOf(h[1..]) + Events(t)) == Events(h[0]) + EventsOf(h[1..]) + Events(t);
    }
  }

  /** One step more behind a series. */
  lemma StepEnd(g: Grammar, ps: seq<Matcher>, m: Matcher, ctx: Context, h: seq<Tree>, t: Tree)
    ensures DerivesSeries(g, ps + [m], h + [t]) && Yields(h + [t]) <= ctx.remainder
       <==> && DerivesSeries(g, ps, h) && Yields(h) <= ctx.remainder
            && Derives(g, m, t) && Yield(t) <= AfterAll(ctx, h).remainder
    ensures Yields(h) <= ctx.remainder && Yield(t) <= AfterAll(ctx, h).remainder ==>
              Yields(h + [t]) <= ctx.remainder && AfterAll(ctx, h + [t]) == After(AfterAll(ctx, h), t)
  {
    hide Update;
    SeriesEnd(g, ps, m, h, t);
    YieldsEnd(h, t);
    if Yields(h + [t]) <= ctx.remainder {
      PrefixSplit(Yields(h), Yield(t), ctx.remainder);
    }
    if Yields(h) <= ctx.remainder && Yield(t) <= AfterAll(ctx, h).remainder {
      AdvanceTwice(ctx, Yields(h), EventsOf(h), Yield(t), Events(t));
    }
  }

  function Behind(h: seq<Tree>, ts: seq<Tree>): seq<seq<Tree>> {
    seq(|ts|, i requires 0 <= i < |ts| => h + [ts[i]])
  }

  lemma BeforeEnd(h1: seq<Tree>, t1: Tree, h2: seq<Tree>, t2: Tree)
    requires BeforeAll(h1, h2) || (h1 == h2 && Before(t1, t2))
    ensures BeforeAll(h1 + [t1], h2 + [t2])
  {
    var a, b := h1 + [t1], h2 + [t2];
    if BeforeAll(h1, h2) {
      var k :| 0 <= k < |h1| && k < |h2| && h1[..k] == h2[..k] && Before(h1[k], h2[k]);
      assert a[..k] == b[..k] && Before(a[k], b[k]);
    } else {
      assert a[..|h1|] == b[..|h1|] && Before(a[|h1|], b[|h1|]);
    }
  }

  // ----- a round over the contexts behind a series -----

  /** `more` are ways through the series and one step more, behind those in `hs`. */
  ghost predicate StepsReach(g: Grammar, ps: seq<Matcher>, m: Matcher, ctx: Context, hs: seq<seq<Tree>>,
                             more: seq<seq<Tree>>, found: seq<Context>)
  {
    && |more| == |found|
    && forall i | 0 <= i < |more| ::
         && more[i] != [] && more[i][..|more[i]| - 1] in hs && ReachesAll(g, ps + [m], ctx, more[i], found[i])
  }

  ghost predicate StepsComplete(g: Grammar, ps: seq<Matcher>, m: Matcher, ctx: Context, hs: seq<seq<Tree>>,
                                more: seq<seq<Tree>>)
  {
    forall h, t | h in hs && DerivesSeries(g, ps + [m], h + [t]) && Yields(h + [t]) <= ctx.remainder ::
      h + [t] in more
  }

  ghost predicate ReachEach(g: Grammar, ps: seq<Matcher>, ctx: Context, hs: seq<seq<Tree>>, ctxs: seq<Context>) {
    |hs| == |ctxs| && forall i | 0 <= i < |hs| :: ReachesAll(g, ps, ctx, hs[i], ctxs[i])
  }

  lemma {:induction false} ListAll(g: Grammar, n: nat, ps: seq<Matcher>, m: Matcher, ctx: Context,
                                   ctxs: seq<Context>, hs: seq<seq<Tree>>)
    returns (more: seq<seq<Tree>>)
    requires ReachEach(g, ps, ctx, hs, ctxs) && SortedAll(hs)
    requires RunAll(g, n, m, ctxs).Done?
    ensures StepsReach(g, ps, m, ctx, hs, more, RunAll(g, n, m, ctxs).found)
    ensures StepsComplete(g, ps, m, ctx, hs, more) && SortedAll(more)
    decreases n, m, 3 + |ctxs|
  {
    if ctxs == [] {
      more := [];
    } else {
      var ts := ListedInOrder(g, n, m, ctxs[0]);
      var rest := ListAll(g, n, ps, m, ctx, ctxs[1..], hs[1..]);
      more := Behind(hs[0], ts) + rest;
      StepMembers(g, ps, m, ctx, hs, ctxs[0], ts, Run(g, n, m, ctxs[0]).found, rest, RunAll(g, n, m, ctxs[1..]).found);
      StepComplete(g, ps, m, ctx, hs, ctxs[0], ts, Run(g, n, m, ctxs[0]).found, rest);
      StepSorted(g, ps, m, ctx, hs, ts, rest, RunAll(g, n, m, ctxs[1..]).found);
    }
  }

  lemma StepMembers(g: Grammar, ps: seq<Matcher>, m: Matcher, ctx: Context, hs: seq<seq<Tree>>, c0: Context,
                    ts: seq<Tree>, f0: seq<Context>, rest: seq<seq<Tree>>, frest: seq<Context>)
    requires hs != [] && ReachesAll(g, ps, ctx, hs[0], c0)
    requires Lists(g, m, c0, ts, f0) && StepsReach(g, ps, m, ctx, hs[1..], rest, frest)
    ensures StepsReach(g, ps, m, ctx, hs, Behind(hs[0], ts) + rest, f0 + frest)
  {
    hide Derives, DerivesSeries, Yields, Yield, AfterAll, After, Sorted;
    var more := Behind(hs[0], ts) + rest;
    forall i | 0 <= i < |more|
      ensures && more[i] != [] && more[i][..|more[i]| - 1] in hs
              && ReachesAll(g, ps + [m], ctx, more[i], (f0 + frest)[i])
    {
      if i < |ts| {
        assert more[i] == hs[0] + [ts[i]] && more[i][..|more[i]| - 1] == hs[0];
        assert Reaches(g, m, c0, ts[i], f0[i]);
        StepEnd(g, ps, m, ctx, hs[0], ts[i]);
      } else {
        assert more[i] == rest[i - |ts|];
      }
    }
  }

  lemma StepComplete(g: Grammar, ps: seq<Matcher>, m: Matcher, ctx: Context, hs: seq<seq<Tree>>, c0: Context,
                     ts: seq<Tree>, f0: seq<Context>, rest: seq<seq<Tree>>)
    requires hs != [] && ReachesAll(g, ps, ctx, hs[0], c0)
    requires Lists(g, m, c0, ts, f0) && StepsComplete(g, ps, m, ctx, hs[1..], rest)
    ensures StepsComplete(g, ps, m, ctx, hs, Behind(hs[0], ts) + rest)
  {
    hide Derives, DerivesSeries, Yields, Yield, AfterAll, After, Sorted;
    var more := Behind(hs[0], ts) + rest;
    forall h, t | h in hs && DerivesSeries(g, ps + [m], h + [t]) && Yields(h + [t]) <= ctx.remainder
      ensures h + [t] in more
    {
      if h == hs[0] {
        StepEnd(g, ps, m, ctx, h, t);
        assert t in ts;
        var i :| 0 <= i < |ts| && ts[i] == t;
        assert more[i] == h + [t];
      } else {
        assert h in hs[1..];
      }
    }
  }

  lemma StepSorted(g: Grammar, ps: seq<Matcher>, m: Matcher, ctx: Context, hs: seq<seq<Tree>>,
                   ts: seq<Tree>, rest: seq<seq<Tree>>, frest: seq<Context>)
    requires hs != [] && SortedAll(hs) && Sorted(ts) && SortedAll(rest)
    requires StepsReach(g, ps, m, ctx, hs[1..], rest, frest)
    ensures SortedAll(Behind(hs[0], ts) + rest)
  {
    hide BeforeAll, Before, ReachesAll;
    var more := Behind(hs[0], ts) + rest;
    forall i, j | 0 <= i < j < |more| ensures BeforeAll(more[i], more[j]) {
      if j < |ts| {
        BeforeEnd(hs[0], ts[i], hs[0], ts[j]);
      } else if i < |ts| {
        var r := more[j];
        assert r == rest[j - |ts|];
        var h := r[..|r| - 1];
        assert h in hs[1..] && r == h + [r[|r| - 1]];
        var k :| 0 <= k < |hs[1..]| && hs[1..][k] == h;
        assert BeforeAll(hs[0], hs[k + 1]);
        BeforeEnd(hs[0], ts[i], h, r[|r| - 1]);
      } else {
        assert more[i] == rest[i - |ts|] && more[j] == rest[j - |ts|];
      }
    }
  }

  /** So a round lists the ways through one piece more. */
  lemma NextStep(g: Grammar, n: nat, ps: seq<Matcher>, m: Matcher, ctx: Context, ctxs: seq<Context>, hs: seq<seq<Tree>>)
    returns (more: seq<seq<Tree>>)
    requires ListsAll(g, ps, ctx, hs, ctxs) && RunAll(g, n, m, ctxs).Done?
    ensures ListsAll(g, ps + [m], ctx, more, RunAll(g, n, m, ctxs).found)
    decreases n, m, 4 + |ctxs|
  {
    hide RunAll, Run, DerivesSeries, Yields, AfterAll, BeforeAll;
    more := ListAll(g, n, ps, m, ctx, ctxs, hs);
    forall h | DerivesSeries(g, ps + [m], h) && Yields(h) <= ctx.remainder ensures h in more {
      SeriesLength(g, ps + [m], h);
      var k := |h| - 1;
      assert h == h[..k] + [h[k]];
      StepEnd(g, ps, m, ctx, h[..k], h[k]);
    }
  }

  lemma {:induction false} SeriesLength(g: Grammar, ps: seq<Matcher>, h: seq<Tree>)
    requires DerivesSeries(g, ps, h)
    ensures |ps| == |h|
  {}

  // ----- every matcher -----

  /** The contexts a match returns are those of all fitting derivations, each once, in
      order. */
  lemma {:induction false} ListedInOrder(g: Grammar, n: nat, m: Matcher, ctx: Context) returns (ts: seq<Tree>)
    requires Run(g, n, m, ctx).Done?
    ensures Lists(g, m, ctx, ts, Run(g, n, m, ctx).found)
    decreases n, m, 2
  {
    match m
    case Term(_) => ts := ListTerminal(g, n, m, ctx);
    case TermType(_, _) => ts := ListTerminal(g, n, m, ctx);
    case Bare(_) => ts := [];
    case Choice(alts) => ts := ListAlts(g, n, alts, ctx);
    case OneOrNone(body) =>
      var subs := ListedInOrder(g, n, body, ctx);
      ts := ListOptional(g, body, ctx, subs, Run(g, n, body, ctx).found);
    case Repeat(body) => ts := ListRepeat(g, n, m, ctx);
    case RuleReference(r) =>
      var subs := ListedInOrder(g, n - 1, g.rules[r], ctx.(production := r));
      ts := ListRule(g, r, ctx, subs, Run(g, n - 1, g.rules[r], ctx.(production := r)).found);
    case RuleSeries(ps) =>
      NothingYet(g, [], ctx);
      assert ps[0..] == ps && ps[..0] == [];
      var hs := ListSeries(g, n, ps, 0, ctx, [ctx], [[]]);
      ts := ListInOrder(g, ps, ctx, hs, RunSeries(g, n, ps, [ctx]).found);
    case Capture(name, collects, body) =>
      var subs := ListedInOrder(g, n, body, ctx);
      ts := ListCaptured(g, m, ctx, subs, Run(g, n, body, ctx).found);
  }

  lemma ListTerminal(g: Grammar, n: nat, m: Matcher, ctx: Context) returns (ts: seq<Tree>)
    requires m.Term? || m.TermType?
    ensures Run(g, n, m, ctx).Done? && Lists(g, m, ctx, ts, Run(g, n, m, ctx).found)
  {
    if ctx.remainder != [] && Takes(g, m, ctx.remainder[0]) {
      var t := LeafStep(g, m, ctx);
      ts := [t];
    } else {
      ts := [];
    }
  }

  lemma {:induction false} ListAlts(g: Grammar, n: nat, alts: seq<Matcher>, ctx: Context) returns (ts: seq<Tree>)
    requires RunAlts(g, n, alts, ctx).Done?
    ensures Lists(g, Choice(alts), ctx, ts, RunAlts(g, n, alts, ctx).found)
    decreases n, alts, 0
  {
    if alts == [] {
      ts := [];
    } else {
      var first := ListedInOrder(g, n, alts[0], ctx);
      var rest := ListAlts(g, n, alts[1..], ctx);
      ts := JoinAlts(g, alts, ctx, first, Run(g, n, alts[0], ctx).found, rest, RunAlts(g, n, alts[1..], ctx).found);
    }
  }

  /** What the lists of the parts of a matcher say of its own. */
  lemma Upward(g: Grammar, m: Matcher, ctx: Context, t: Tree, x: Context)
    ensures m.Choice? ==> forall i: nat | i < |m.alts| ::
                            Reaches(g, m.alts[i], ctx, t, x) ==> Reaches(g, m, ctx, Picked(i, t), x)
    ensures m.OneOrNone? ==> Reaches(g, m, ctx, Skipped, ctx)
    ensures m.OneOrNone? && Reaches(g, m.body, ctx, t, x) ==> Reaches(g, m, ctx, Taken(t), x)
    ensures m.RuleReference? && m.rule in g.rules && Reaches(g, g.rules[m.rule], ctx.(production := m.rule), t, x)
            ==> Reaches(g, m, ctx, Expanded(t), x.(production := ctx.production))
    ensures m.Capture? && Reaches(g, m.body, ctx, t, x)
            ==> Reaches(g, m, ctx, Captured(m.name, m.collects, t), BindOne(ctx, m.name, m.collects, x))
  {
    hide Update, BindOne;
    Lifts(g, m, ctx, t, x);
    if m.RuleReference? {
      UpdateSource(ctx, ctx.(production := m.rule), ctx.bindings, Events(t));
    }
    if m.Capture? && Yield(t) <= ctx.remainder {
      CaptureStep(ctx, m.name, m.collects, t);
    }
  }

  lemma Downward(g: Grammar, m: Matcher, ctx: Context, t: Tree)
    requires Fits(g, m, ctx, t)
    ensures m.Choice? ==> t.Picked? && t.index < |m.alts| && Fits(g, m.alts[t.index], ctx, t.sub)
    ensures m.OneOrNone? ==> t.Skipped? || (t.Taken? && Fits(g, m.body, ctx, t.sub))
    ensures m.RuleReference? ==>
              t.Expanded? && m.rule in g.rules && Fits(g, g.rules[m.rule], ctx.(production := m.rule), t.sub)
    ensures m.Capture? ==> t == Captured(m.name, m.collects, t.sub) && Fits(g, m.body, ctx, t.sub)
    ensures m.RuleSeries? ==> t.InOrder? && DerivesSeries(g, m.pieces, t.subs) && Yields(t.subs) <= ctx.remainder
    ensures m.Repeat? ==> t.Iterated? && DerivesEach(g, m.body, t.subs) && Yields(t.subs) <= ctx.remainder
  {}

  lemma Upright(a: Tree, b: Tree)
    ensures Before(Taken(a), Taken(b)) <==> Before(a, b)
    ensures Before(Expanded(a), Expanded(b)) <==> Before(a, b)
    ensures forall i, j :: Before(Picked(i, a), Picked(j, b)) <==> i < j || (i == j && Before(a, b))
    ensures forall name, c :: Before(Captured(name, c, a), Captured(name, c, b)) <==> Before(a, b)
    ensures Before(Skipped, Taken(b))
  {}

  /** The alternatives behind the first, counted from the first. */
  function Later(t: Tree): Tree {
    if t.Picked? then Picked(t.index + 1, t.sub) else t
  }

  lemma LaterReach(g: Grammar, alts: seq<Matcher>, ctx: Context, t: Tree, x: Context)
    requires alts != []
    ensures Reaches(g, Choice(alts[1..]), ctx, t, x) ==> Reaches(g, Choice(alts), ctx, Later(t), x) && t.Picked?
    ensures forall u :: Fits(g, Choice(alts), ctx, u) && u.index > 0 ==>
                          var v := Picked(u.index - 1, u.sub); Later(v) == u && Fits(g, Choice(alts[1..]), ctx, v)
  {
    hide Update;
  }

  lemma JoinAlts(g: Grammar, alts: seq<Matcher>, ctx: Context, first: seq<Tree>, f0: seq<Context>,
                 rest: seq<Tree>, frest: seq<Context>)
    returns (ts: seq<Tree>)
    requires alts != []
    requires Lists(g, alts[0], ctx, first, f0) && Lists(g, Choice(alts[1..]), ctx, rest, frest)
    ensures Lists(g, Choice(alts), ctx, ts, f0 + frest)
  {
    hide Reaches, Fits, Before;
    var m := Choice(alts);
    var a := seq(|first|, i requires 0 <= i < |first| => Picked(0, first[i]));
    var b := seq(|rest|, i requires 0 <= i < |rest| => Later(rest[i]));
    ts := a + b;
    forall t | Fits(g, m, ctx, t) ensures t in ts {
      Downward(g, m, ctx, t);
      if t.index == 0 {
        var i :| 0 <= i < |first| && first[i] == t.sub;
        assert ts[i] == t;
      } else {
        LaterReach(g, alts, ctx, t, ctx);
        var i :| 0 <= i < |rest| && rest[i] == Picked(t.index - 1, t.sub);
        assert ts[|a| + i] == t;
      }
    }
    forall i | 0 <= i < |rest| ensures rest[i].Picked? {
      LaterReach(g, alts, ctx, rest[i], frest[i]);
    }
    forall i | 0 <= i < |ts| ensures Reaches(g, m, ctx, ts[i], (f0 + frest)[i]) {
      if i < |a| {
        Upward(g, m, ctx, first[i], f0[i]);
      } else {
        LaterReach(g, alts, ctx, rest[i - |a|], frest[i - |a|]);
      }
    }
    forall i, j | 0 <= i < j < |ts| ensures Before(ts[i], ts[j]) {
      Upright(ts[i].sub, ts[j].sub);
      if i >= |a| {
        Upright(rest[i - |a|].sub, rest[j - |a|].sub);
        assert rest[i - |a|] == Picked(rest[i - |a|].index, rest[i - |a|].sub);
        assert Before(rest[i - |a|], rest[j - |a|]);
      }
    }
  }

  lemma ListOptional(g: Grammar, body: Matcher, ctx: Context, subs: seq<Tree>, found: seq<Context>)
    returns (ts: seq<Tree>)
    requires Lists(g, body, ctx, subs, found)
    ensures Lists(g, OneOrNone(body), ctx, ts, [ctx] + found)
  {
    hide Reaches, Fits, Before;
    var m := OneOrNone(body);
    var a := seq(|subs|, i requires 0 <= i < |subs| => Taken(subs[i]));
    ts := [Skipped] + a;
    forall t | Fits(g, m, ctx, t) ensures t in ts {
      Downward(g, m, ctx, t);
      if t.Taken? {
        var i :| 0 <= i < |subs| && subs[i] == t.sub;
        assert ts[1 + i] == t;
      }
    }
    forall i | 0 <= i < |ts| ensures Reaches(g, m, ctx, ts[i], ([ctx] + found)[i]) {
      Upward(g, m, ctx, if i == 0 then Skipped else subs[i - 1], ([ctx] + found)[i]);
    }
    forall i, j | 0 <= i < j < |ts| ensures Before(ts[i], ts[j]) {
      Upright(ts[j].sub, ts[j].sub);
      if i > 0 {
        Upright(ts[i].sub, ts[j].sub);
      }
    }
  }

  lemma ListRule(g: Grammar, r: string, ctx: Context, subs: seq<Tree>, found: seq<Context>) returns (ts: seq<Tree>)
    requires r in g.rules && Lists(g, g.rules[r], ctx.(production := r), subs, found)
    ensures Lists(g, RuleReference(r), ctx, ts, Restore(found, ctx.production))
  {
    hide Reaches, Fits, Before;
    var m := RuleReference(r);
    ts := seq(|subs|, i requires 0 <= i < |subs| => Expanded(subs[i]));
    forall t | Fits(g, m, ctx, t) ensures t in ts {
      Downward(g, m, ctx, t);
      var i :| 0 <= i < |subs| && subs[i] == t.sub;
      assert ts[i] == t;
    }
    forall i | 0 <= i < |ts| ensures Reaches(g, m, ctx, ts[i], Restore(found, ctx.production)[i]) {
      Upward(g, m, ctx, subs[i], found[i]);
    }
    forall i, j | 0 <= i < j < |ts| ensures Before(ts[i], ts[j]) {
      Upright(subs[i], subs[j]);
    }
  }

  lemma ListCaptured(g: Grammar, m: Matcher, ctx: Context, subs: seq<Tree>, found: seq<Context>)
    returns (ts: seq<Tree>)
    requires m.Capture? && Lists(g, m.body, ctx, subs, found)
    requires BindEach(ctx, m.name, m.collects, found).Done?
    ensures Lists(g, m, ctx, ts, BindEach(ctx, m.name, m.collects, found).found)
  {
    hide Reaches, Fits, Before, BindOne, BindEach;
    BindEachMembers(ctx, m.name, m.collects, found);
    var bound := BindEach(ctx, m.name, m.collects, found).found;
    ts := seq(|subs|, i requires 0 <= i < |subs| => Captured(m.name, m.collects, subs[i]));
    forall t | Fits(g, m, ctx, t) ensures t in ts {
      Downward(g, m, ctx, t);
      var i :| 0 <= i < |subs| && subs[i] == t.sub;
      assert ts[i] == t;
    }
    forall i | 0 <= i < |ts| ensures Reaches(g, m, ctx, ts[i], bound[i]) {
      Upward(g, m, ctx, subs[i], found[i]);
    }
    forall i, j | 0 <= i < j < |ts| ensures Before(ts[i], ts[j]) {
      Upright(subs[i], subs[j]);
    }
  }

  // ----- a series -----

  lemma NothingYet(g: Grammar, ps: seq<Matcher>, ctx: Context)
    requires ps == []
    ensures ListsAll(g, ps, ctx, [[]], [ctx])
  {
    AdvanceNothing(ctx);
    forall h | DerivesSeries(g, ps, h) && Yields(h) <= ctx.remainder ensures h in [[]] {
      SeriesLength(g, ps, h);
    }
  }

  lemma {:induction false} ListSeries(g: Grammar, n: nat, ps: seq<Matcher>, k: nat, ctx: Context, ctxs: seq<Context>,
                                      hs: seq<seq<Tree>>)
    returns (all: seq<seq<Tree>>)
    requires k <= |ps| && ListsAll(g, ps[..k], ctx, hs, ctxs)
    requires RunSeries(g, n, ps[k..], ctxs).Done?
    ensures ListsAll(g, ps, ctx, all, RunSeries(g, n, ps[k..], ctxs).found)
    decreases n, ps, |ps| - k
  {
    hide ListsAll;
    if k == |ps| {
      assert ps[..k] == ps;
      all := hs;
    } else {
      assert ps[k..][0] == ps[k] && ps[k..][1..] == ps[k + 1..] && ps[..k] + [ps[k]] == ps[..k + 1];
      var more := NextStep(g, n, ps[..k], ps[k], ctx, ctxs, hs);
      var step := RunAll(g, n, ps[k], ctxs);
      if step.found == [] {
        NoWayOn(g, ps, k + 1, ctx, more, step.found);
        all := [];
      } else {
        all := ListSeries(g, n, ps, k + 1, ctx, step.found, more);
      }
    }
  }

  /** Where no way leads through the first pieces, none leads through all of them. */
  lemma NoWayOn(g: Grammar, ps: seq<Matcher>, k: nat, ctx: Context, hs: seq<seq<Tree>>, found: seq<Context>)
    requires k <= |ps| && ListsAll(g, ps[..k], ctx, hs, found) && found == []
    ensures ListsAll(g, ps, ctx, [], [])
  {
    forall h | DerivesSeries(g, ps, h) && Yields(h) <= ctx.remainder ensures false {
      SeriesFront(g, ps, ctx, h, k);
    }
  }

  lemma {:induction false} SeriesFront(g: Grammar, ps: seq<Matcher>, ctx: Context, h: seq<Tree>, k: nat)
    requires DerivesSeries(g, ps, h) && Yields(h) <= ctx.remainder && k <= |ps|
    ensures k <= |h| && DerivesSeries(g, ps[..k], h[..k]) && Yields(h[..k]) <= ctx.remainder
    decreases |h|
  {
    SeriesLength(g, ps, h);
    if k == |ps| {
      assert ps[..k] == ps && h[..k] == h;
    } else {
      var n := |h| - 1;
      assert ps == ps[..n] + [ps[n]] && h == h[..n] + [h[n]];
      StepEnd(g, ps[..n], ps[n], ctx, h[..n], h[n]);
      SeriesFront(g, ps[..n], ctx, h[..n], k);
      assert ps[..n][..k] == ps[..k] && h[..n][..k] == h[..k];
    }
  }

  lemma WayReaches(g: Grammar, m: Matcher, ctx: Context, h: seq<Tree>, x: Context)
    ensures m.RuleSeries? && ReachesAll(g, m.pieces, ctx, h, x) ==> Reaches(g, m, ctx, InOrder(h), x)
    ensures m.Repeat? && DerivesEach(g, m.body, h) && Yields(h) <= ctx.remainder && x == AfterAll(ctx, h)
            ==> Reaches(g, m, ctx, Iterated(h), x)
  {
    hide Update;
  }

  lemma ListInOrder(g: Grammar, ps: seq<Matcher>, ctx: Context, hs: seq<seq<Tree>>, found: seq<Context>)
    returns (ts: seq<Tree>)
    requires ListsAll(g, ps, ctx, hs, found)
    ensures Lists(g, RuleSeries(ps), ctx, ts, found)
  {
    hide BeforeAll, DerivesSeries, Yields, AfterAll, Fits;
    var m := RuleSeries(ps);
    ts := seq(|hs|, i requires 0 <= i < |hs| => InOrder(hs[i]));
    forall t | Fits(g, m, ctx, t) ensures t in ts {
      Downward(g, m, ctx, t);
      var i :| 0 <= i < |hs| && hs[i] == t.subs;
      assert ts[i] == t;
    }
    forall i | 0 <= i < |ts| ensures Reaches(g, m, ctx, ts[i], found[i]) {
      WayReaches(g, m, ctx, hs[i], found[i]);
    }
    forall i, j | 0 <= i < j < |ts| ensures Before(ts[i], ts[j]) {
      assert BeforeAll(hs[i], hs[j]);
    }
  }

  // ----- a repeat -----

  function Copies(m: Matcher, k: nat): seq<Matcher> {
    seq(k, _ => m)
  }

  lemma {:induction false} EachIsSeries(g: Grammar, m: Matcher, h: seq<Tree>)
    ensures DerivesEach(g, m, h) <==> DerivesSeries(g, Copies(m, |h|), h)
    decreases |h|
  {
    if h == [] {
    } else {
      assert Copies(m, |h|)[1..] == Copies(m, |h[1..]|);
      EachIsSeries(g, m, h[1..]);
    }
  }

  /** Fewer rounds first. */
  ghost predicate SortedRounds(hs: seq<seq<Tree>>) {
    forall i, j | 0 <= i < j < |hs| :: Before(Iterated(hs[i]), Iterated(hs[j]))
  }

  ghost predicate Round(g: Grammar, m: Matcher, ctx: Context, k: nat, h: seq<Tree>) {
    |h| > k && DerivesEach(g, m, h) && Yields(h) <= ctx.remainder
  }

  /** All ways of more than `k` rounds. */
  ghost predicate ListsRounds(g: Grammar, m: Matcher, ctx: Context, k: nat, hs: seq<seq<Tree>>, found: seq<Context>) {
    && |hs| == |found|
    && (forall i | 0 <= i < |hs| :: Round(g, m, ctx, k, hs[i]) && found[i] == AfterAll(ctx, hs[i]))
    && (forall h | Round(g, m, ctx, k, h) :: h in hs)
    && SortedRounds(hs)
  }

  lemma {:induction false} ListRounds(g: Grammar, n: nat, m: Matcher, k: nat, ctx: Context, ctxs: seq<Context>,
                                      hs: seq<seq<Tree>>)
    returns (all: seq<seq<Tree>>)
    requires m.Repeat? && ListsAll(g, Copies(m.body, k), ctx, hs, ctxs)
    requires RunRepeat(g, n, m, ctxs).Done?
    ensures ListsRounds(g, m.body, ctx, k, all, RunRepeat(g, n, m, ctxs).found)
    decreases n, m, 0
  {
    hide ListsAll, ListsRounds;
    assert Copies(m.body, k) + [m.body] == Copies(m.body, k + 1);
    var more := NextStep(g, n, Copies(m.body, k), m.body, ctx, ctxs, hs);
    var step := RunAll(g, n, m.body, ctxs);
    if step.found == [] {
      NoMoreRounds(g, m.body, k, ctx, more, step.found);
      all := [];
    } else {
      var rest := ListRounds(g, n - 1, m, k + 1, ctx, step.found, more);
      JoinRounds(g, m.body, k, ctx, more, step.found, rest, RunRepeat(g, n - 1, m, step.found).found);
      all := more + rest;
    }
  }

  lemma RoundFront(g: Grammar, m: Matcher, ctx: Context, k: nat, h: seq<Tree>)
    requires Round(g, m, ctx, k, h)
    ensures DerivesSeries(g, Copies(m, k + 1), h[..k + 1]) && Yields(h[..k + 1]) <= ctx.remainder
  {
    EachIsSeries(g, m, h);
    SeriesFront(g, Copies(m, |h|), ctx, h, k + 1);
    assert Copies(m, |h|)[..k + 1] == Copies(m, k + 1);
  }

  lemma NoMoreRounds(g: Grammar, m: Matcher, k: nat, ctx: Context, hs: seq<seq<Tree>>, found: seq<Context>)
    requires ListsAll(g, Copies(m, k + 1), ctx, hs, found) && found == []
    ensures ListsRounds(g, m, ctx, k, [], [])
  {
    forall h | Round(g, m, ctx, k, h) ensures false {
      RoundFront(g, m, ctx, k, h);
    }
  }

  lemma JoinRounds(g: Grammar, m: Matcher, k: nat, ctx: Context, more: seq<seq<Tree>>, f0: seq<Context>,
                   rest: seq<seq<Tree>>, frest: seq<Context>)
    requires ListsAll(g, Copies(m, k + 1), ctx, more, f0) && ListsRounds(g, m, ctx, k + 1, rest, frest)
    ensures ListsRounds(g, m, ctx, k, more + rest, f0 + frest)
  {
    hide DerivesSeries, DerivesEach, Yields, AfterAll, BeforeAll;
    var all, found := more + rest, f0 + frest;
    forall i | 0 <= i < |more| ensures |more[i]| == k + 1 && DerivesEach(g, m, more[i]) {
      assert ReachesAll(g, Copies(m, k + 1), ctx, more[i], f0[i]);
      SeriesLength(g, Copies(m, k + 1), more[i]);
      EachIsSeries(g, m, more[i]);
    }
    forall i | 0 <= i < |all| ensures Round(g, m, ctx, k, all[i]) && found[i] == AfterAll(ctx, all[i]) {
      if i < |more| {
        assert ReachesAll(g, Copies(m, k + 1), ctx, more[i], f0[i]);
      } else {
        assert Round(g, m, ctx, k + 1, rest[i - |more|]);
      }
    }
    forall h | Round(g, m, ctx, k, h) ensures h in all {
      if |h| == k + 1 {
        EachIsSeries(g, m, h);
        assert h in more;
      } else {
        assert Round(g, m, ctx, k + 1, h);
      }
    }
    forall i, j | 0 <= i < j < |all| ensures Before(Iterated(all[i]), Iterated(all[j])) {
      if j < |more| {
        assert BeforeAll(more[i], more[j]);
      } else if i < |more| {
        assert Round(g, m, ctx, k + 1, rest[j - |more|]);
      } else {
        assert Before(Iterated(rest[i - |more|]), Iterated(rest[j - |more|]));
      }
    }
  }

  lemma ListRepeat(g: Grammar, n: nat, m: Matcher, ctx: Context) returns (ts: seq<Tree>)
    requires m.Repeat? && Run(g, n, m, ctx).Done?
    ensures Lists(g, m, ctx, ts, Run(g, n, m, ctx).found)
    decreases n, m, 1
  {
    NothingYet(g, Copies(m.body, 0), ctx);
    var hs := ListRounds(g, n, m, 0, ctx, [ctx], [[]]);
    ts := ListIterated(g, m, ctx, hs, RunRepeat(g, n, m, [ctx]).found);
  }

  lemma ListIterated(g: Grammar, m: Matcher, ctx: Context, hs: seq<seq<Tree>>, found: seq<Context>)
    returns (ts: seq<Tree>)
    requires m.Repeat? && ListsRounds(g, m.body, ctx, 0, hs, found)
    ensures Lists(g, m, ctx, ts, [ctx] + found)
  {
    hide Reaches, Fits, Before, Yields, DerivesEach, AfterAll;
    var a := seq(|hs|, i requires 0 <= i < |hs| => Iterated(hs[i]));
    ts := [Iterated([])] + a;
    forall t | Fits(g, m, ctx, t) ensures t in ts {
      Downward(g, m, ctx, t);
      if t.subs != [] {
        assert Round(g, m.body, ctx, 0, t.subs);
        var i :| 0 <= i < |hs| && hs[i] == t.subs;
        assert ts[1 + i] == t;
      }
    }
    forall i | 0 <= i < |ts| ensures Reaches(g, m, ctx, ts[i], ([ctx] + found)[i]) {
      if i == 0 {
        Lifts(g, m, ctx, Iterated([]), ctx);
      } else {
        assert Round(g, m.body, ctx, 0, hs[i - 1]);
        WayReaches(g, m, ctx, hs[i - 1], found[i - 1]);
      }
    }
    forall i, j | 0 <= i < j < |ts| ensures Before(ts[i], ts[j]) {
      if i > 0 {
        assert Before(Iterated(hs[i - 1]), Iterated(hs[j - 1]));
      } else {
        assert Round(g, m.body, ctx, 0, hs[j - 1]);
        MoreRounds(hs[j - 1]);
      }
    }
  }

  lemma MoreRounds(h: seq<Tree>)
    requires h != []
    ensures Before(Iterated([]), Iterated(h))
  {}

  // ----- the first whole match -----

  ghost predicate Whole(g: Grammar, m: Matcher, ctx: Context, t: Tree) {
    Derives(g, m, t) && Yield(t) == ctx.remainder
  }

  /** No derivation of all the tokens comes before `t`. */
  ghost predicate FirstDerivation(g: Grammar, m: Matcher, ctx: Context, t: Tree) {
    Whole(g, m, ctx, t) && forall u | Whole(g, m, ctx, u) :: u == t || Before(t, u)
  }

  lemma WholeUsesAll(ctx: Context, t: Tree)
    requires Yield(t) <= ctx.remainder
    ensures After(ctx, t).remainder == [] <==> Yield(t) == ctx.remainder
  {
    hide Update;
    assert ctx.remainder == Yield(t) + ctx.remainder[|Yield(t)|..];
  }

  /** The first context without remainder is that of the first derivation of all tokens. */
  lemma FirstIsFirst(g: Grammar, n: nat, m: Matcher, ctx: Context, i: nat) returns (t: Tree)
    requires Run(g, n, m, ctx).Done? && i < |Run(g, n, m, ctx).found|
    requires Run(g, n, m, ctx).found[i].remainder == []
    requires forall j | 0 <= j < i :: Run(g, n, m, ctx).found[j].remainder != []
    ensures FirstDerivation(g, m, ctx, t) && Reaches(g, m, ctx, t, Run(g, n, m, ctx).found[i])
  {
    hide Run, Before, After, Derives, Yield;
    var found := Run(g, n, m, ctx).found;
    var ts := ListedInOrder(g, n, m, ctx);
    t := ts[i];
    assert Reaches(g, m, ctx, ts[i], found[i]);
    WholeUsesAll(ctx, t);
    forall u | Whole(g, m, ctx, u) ensures u == t || Before(t, u) {
      assert Fits(g, m, ctx, u);
      WholeUsesAll(ctx, u);
      var j :| 0 <= j < |ts| && ts[j] == u;
      assert Reaches(g, m, ctx, ts[j], found[j]);
    }
  }
}
