/** What the grammar means, without contexts: derivation trees, the tokens they
    cover and the captures they make. The matchers find exactly these trees. */
module Derivations {
  import opened Matchers

  datatype Tree =
    | Leaf(tok: Token)
    | Picked(index: nat, sub: Tree)
    | Skipped
    | Taken(sub: Tree)
    | Iterated(subs: seq<Tree>)
    | Expanded(sub: Tree)
    | InOrder(subs: seq<Tree>)
    | Captured(name: string, collects: bool, sub: Tree)

  ghost predicate Derives(g: Grammar, m: Matcher, t: Tree)
    decreases t
  {
    match m
    case Term(_) => t.Leaf? && Takes(g, m, t.tok)
    case TermType(_, _) => t.Leaf? && Takes(g, m, t.tok)
    case Bare(_) => false
    case Choice(alts) => t.Picked? && t.index < |alts| && Derives(g, alts[t.index], t.sub)
    case OneOrNone(body) => t.Skipped? || (t.Taken? && Derives(g, body, t.sub))
    case Repeat(body) => t.Iterated? && DerivesEach(g, body, t.subs)
    case RuleReference(r) => t.Expanded? && r in g.rules && Derives(g, g.rules[r], t.sub)
    case RuleSeries(ps) => t.InOrder? && DerivesSeries(g, ps, t.subs)
    case Capture(name, collects, body) =>
      t.Captured? && t.name == name && t.collects == collects && Derives(g, body, t.sub)
  }

  ghost predicate DerivesEach(g: Grammar, m: Matcher, ts: seq<Tree>)
    decreases ts
  {
    ts == [] || (Derives(g, m, ts[0]) && DerivesEach(g, m, ts[1..]))
  }

  ghost predicate DerivesSeries(g: Grammar, ms: seq<Matcher>, ts: seq<Tree>)
    decreases ts
  {
    |ms| == |ts| && (ts == [] || (Derives(g, ms[0], ts[0]) && DerivesSeries(g, ms[1..], ts[1..])))
  }

  /** The tokens a tree covers. */
  function Yield(t: Tree): seq<Token>
    decreases t
  {
    match t
    case Leaf(tok) => [tok]
    case Picked(_, sub) => Yield(sub)
    case Skipped => []
    case Taken(sub) => Yield(sub)
    case Iterated(subs) => Yields(subs)
    case Expanded(sub) => Yield(sub)
    case InOrder(subs) => Yields(subs)
    case Captured(_, _, sub) => Yield(sub)
  }

  function Yields(ts: seq<Tree>): seq<Token>
    decreases ts
  {
    if ts == [] then [] else Yield(ts[0]) + Yields(ts[1..])
  }

  /** The captures of a tree in post-order. */
  datatype Event = Event(name: string, collects: bool, toks: seq<Token>)

  function Events(t: Tree): seq<Event>
    decreases t
  {
    match t
    case Leaf(_) => []
    case Picked(_, sub) => Events(sub)
    case Skipped => []
    case Taken(sub) => Events(sub)
    case Iterated(subs) => EventsOf(subs)
    case Expanded(sub) => Events(sub)
    case InOrder(subs) => EventsOf(subs)
    case Captured(name, collects, sub) => Events(sub) + [Event(name, collects, Yield(sub))]
  }

  function EventsOf(ts: seq<Tree>): seq<Event>
    decreases ts
  {
    if ts == [] then [] else Events(ts[0]) + EventsOf(ts[1..])
  }

  /** Collectors append, symbols overwrite. */
  function Update(ctx: Context, b: map<string, Binding>, evs: seq<Event>): map<string, Binding>
    decreases |evs|
  {
    if evs == [] then b
    else
      var last := evs[|evs| - 1];
      Bound(Update(ctx, b, evs[..|evs| - 1]), last.name, last.collects, ExtractOrig(ctx.src, ctx.hasSrc, last.toks))
  }

  /** The context after covering `toks` and making the captures `evs`. */
  function Advance(ctx: Context, toks: seq<Token>, evs: seq<Event>): Context
    requires toks <= ctx.remainder
  {
    ctx.(bindings := Update(ctx, ctx.bindings, evs),
         matched := ctx.matched + toks,
         remainder := ctx.remainder[|toks|..])
  }

  function After(ctx: Context, t: Tree): Context
    requires Yield(t) <= ctx.remainder
  {
    Advance(ctx, Yield(t), Events(t))
  }

  function AfterAll(ctx: Context, ts: seq<Tree>): Context
    requires Yields(ts) <= ctx.remainder
  {
    Advance(ctx, Yields(ts), EventsOf(ts))
  }

  // ----- composing steps -----

  lemma UpdateAppend(ctx: Context, b: map<string, Binding>, e1: seq<Event>, e2: seq<Event>)
    ensures Update(ctx, b, e1 + e2) == Update(ctx, Update(ctx, b, e1), e2)
    decreases |e2|
  {
    if e2 == [] {
      assert e1 + e2 == e1;
    } else {
      var n := |e2| - 1;
      assert (e1 + e2)[..|e1 + e2| - 1] == e1 + e2[..n];
      UpdateAppend(ctx, b, e1, e2[..n]);
    }
  }

  lemma UpdateSource(c1: Context, c2: Context, b: map<string, Binding>, evs: seq<Event>)
    requires c1.src == c2.src && c1.hasSrc == c2.hasSrc
    ensures Update(c1, b, evs) == Update(c2, b, evs)
    decreases |evs|
  {
    if evs == [] {
    } else {
      UpdateSource(c1, c2, b, evs[..|evs| - 1]);
    }
  }

  lemma AdvanceTwice(ctx: Context, t1: seq<Token>, e1: seq<Event>, t2: seq<Token>, e2: seq<Event>)
    requires t1 <= ctx.remainder && t2 <= ctx.remainder[|t1|..]
    ensures t1 + t2 <= ctx.remainder
    ensures Advance(Advance(ctx, t1, e1), t2, e2) == Advance(ctx, t1 + t2, e1 + e2)
  {
    var mid := Advance(ctx, t1, e1);
    UpdateAppend(ctx, ctx.bindings, e1, e2);
    UpdateSource(mid, ctx, mid.bindings, e2);
    assert ctx.remainder[|t1|..][|t2|..] == ctx.remainder[|t1 + t2|..];
    assert ctx.matched + t1 + t2 == ctx.matched + (t1 + t2);
    assert ctx.remainder == t1 + ctx.remainder[|t1|..];
  }

  lemma PrefixSplit(a: seq<Token>, b: seq<Token>, r: seq<Token>)
    requires a + b <= r
    ensures a <= r && b <= r[|a|..]
  {
    assert a == (a + b)[..|a|];
    assert b == (a + b)[|a|..];
    assert r[..|a + b|] == a + b;
  }

  lemma AdvanceNothing(ctx: Context)
    ensures Advance(ctx, [], []) == ctx
  {
    assert ctx.matched + [] == ctx.matched;
    assert ctx.remainder[0..] == ctx.remainder;
  }

  lemma PeelOne(c0: Context, ts: seq<Tree>)
    requires ts != [] && Yields(ts) <= c0.remainder
    ensures Yield(ts[0]) <= c0.remainder && Yields(ts[1..]) <= After(c0, ts[0]).remainder
    ensures AfterAll(After(c0, ts[0]), ts[1..]) == AfterAll(c0, ts)
  {
    var t, rest := ts[0], ts[1..];
    PrefixSplit(Yield(t), Yields(rest), c0.remainder);
    AdvanceTwice(c0, Yield(t), Events(t), Yields(rest), EventsOf(rest));
  }

  lemma PushOne(c0: Context, t: Tree, rest: seq<Tree>)
    requires Yield(t) <= c0.remainder && Yields(rest) <= After(c0, t).remainder
    ensures Yields([t] + rest) <= c0.remainder
    ensures AfterAll(c0, [t] + rest) == AfterAll(After(c0, t), rest)
  {
    assert ([t] + rest)[1..] == rest;
    AdvanceTwice(c0, Yield(t), Events(t), Yields(rest), EventsOf(rest));
  }

  // ----- soundness: every context found comes from a tree -----

  ghost predicate Reaches(g: Grammar, m: Matcher, ctx: Context, t: Tree, x: Context) {
    Derives(g, m, t) && Yield(t) <= ctx.remainder && x == After(ctx, t)
  }

  lemma Lifts(g: Grammar, m: Matcher, ctx: Context, t: Tree, x: Context)
    ensures m.OneOrNone? && Reaches(g, m.body, ctx, t, x) ==> Reaches(g, m, ctx, Taken(t), x)
    ensures m.OneOrNone? ==> Reaches(g, m, ctx, Skipped, ctx)
    ensures m.Repeat? ==> Reaches(g, m, ctx, Iterated([]), ctx)
    ensures forall i: nat :: m.Choice? && i < |m.alts| && Reaches(g, m.alts[i], ctx, t, x)
                      ==> Reaches(g, m, ctx, Picked(i, t), x)
  {
    AdvanceNothing(ctx);
  }

  lemma {:induction false} Soundness(g: Grammar, n: nat, m: Matcher, ctx: Context, x: Context) returns (t: Tree)
    requires Run(g, n, m, ctx).Done? && x in Run(g, n, m, ctx).found
    ensures Reaches(g, m, ctx, t, x)
    decreases n, m, 1
  {
    match m
    case Term(_) => t := LeafStep(g, m, ctx);
    case TermType(_, _) => t := LeafStep(g, m, ctx);
    case Bare(_) =>
    case Choice(alts) =>
      var i, sub := SoundAlts(g, n, alts, ctx, x);
      t := Picked(i, sub);
      Lifts(g, m, ctx, sub, x);
    case OneOrNone(body) =>
      t := Skipped;
      if x != ctx {
        var sub := Soundness(g, n, body, ctx, x);
        t := Taken(sub);
        Lifts(g, m, ctx, sub, x);
      } else {
        Lifts(g, m, ctx, t, x);
      }
    case Repeat(body) =>
      t := Iterated([]);
      if x != ctx {
        var c0, ts := SoundRepeat(g, n, m, [ctx], x);
        t := Iterated(ts);
      } else {
        Lifts(g, m, ctx, t, x);
      }
    case RuleReference(r) =>
      t := SoundRule(g, n, r, ctx, x);
    case RuleSeries(ps) =>
      var c0, ts := SoundSeries(g, n, ps, [ctx], x);
      t := InOrder(ts);
    case Capture(name, collects, body) =>
      t := SoundCapture(g, n, m, ctx, x);
  }

  lemma LeafStep(g: Grammar, m: Matcher, ctx: Context) returns (t: Tree)
    requires m.Term? || m.TermType?
    requires ctx.remainder != [] && Takes(g, m, ctx.remainder[0])
    ensures Reaches(g, m, ctx, t, WithMatch(ctx, 1))
  {
    t := Leaf(ctx.remainder[0]);
    assert ctx.remainder[..1] == [ctx.remainder[0]];
  }

  lemma {:induction false} SoundRule(g: Grammar, n: nat, r: string, ctx: Context, x: Context) returns (t: Tree)
    requires Run(g, n, RuleReference(r), ctx).Done? && x in Run(g, n, RuleReference(r), ctx).found
    ensures Reaches(g, RuleReference(r), ctx, t, x)
    decreases n, RuleReference(r), 0
  {
    var inside := ctx.(production := r);
    var inner := Run(g, n - 1, g.rules[r], inside);
    var i :| 0 <= i < |inner.found| && x == inner.found[i].(production := ctx.production);
    var sub := Soundness(g, n - 1, g.rules[r], inside, inner.found[i]);
    t := Expanded(sub);
    UpdateSource(ctx, inside, ctx.bindings, Events(sub));
  }

  lemma {:induction false} SoundCapture(g: Grammar, n: nat, m: Matcher, ctx: Context, x: Context) returns (t: Tree)
    requires m.Capture?
    requires Run(g, n, m, ctx).Done? && x in Run(g, n, m, ctx).found
    ensures Reaches(g, m, ctx, t, x)
    decreases n, m, 0
  {
    var inner := Run(g, n, m.body, ctx);
    BindEachMembers(ctx, m.name, m.collects, inner.found);
    var i :| 0 <= i < |inner.found| && x == BindEach(ctx, m.name, m.collects, inner.found).found[i];
    var y := inner.found[i];
    var sub := Soundness(g, n, m.body, ctx, y);
    t := Captured(m.name, m.collects, sub);
    CaptureStep(ctx, m.name, m.collects, sub);
  }

  lemma UpdateLast(ctx: Context, b: map<string, Binding>, evs: seq<Event>, e: Event)
    ensures Update(ctx, b, evs + [e])
         == Bound(Update(ctx, b, evs), e.name, e.collects, ExtractOrig(ctx.src, ctx.hasSrc, e.toks))
  {
    assert (evs + [e])[..|evs + [e]| - 1] == evs;
  }

  lemma BindOneTokens(ctx: Context, name: string, collects: bool, c: Context, toks: seq<Token>)
    requires c.matched == ctx.matched + toks
    ensures BindOne(ctx, name, collects, c)
         == c.(bindings := Bound(c.bindings, name, collects, ExtractOrig(ctx.src, ctx.hasSrc, toks)))
  {
    hide Bound, ExtractOrig;
    assert c.matched[|ctx.matched|..] == toks;
  }

  lemma CaptureStep(ctx: Context, name: string, collects: bool, sub: Tree)
    requires Yield(sub) <= ctx.remainder
    ensures After(ctx, Captured(name, collects, sub)) == BindOne(ctx, name, collects, After(ctx, sub))
  {
    hide Update, ExtractOrig, Bound, BindOne;
    BindOneTokens(ctx, name, collects, After(ctx, sub), Yield(sub));
    UpdateLast(ctx, ctx.bindings, Events(sub), Event(name, collects, Yield(sub)));
  }

  lemma {:induction false} SoundAlts(g: Grammar, n: nat, alts: seq<Matcher>, ctx: Context, x: Context)
    returns (i: nat, t: Tree)
    requires RunAlts(g, n, alts, ctx).Done? && x in RunAlts(g, n, alts, ctx).found
    ensures i < |alts| && Reaches(g, alts[i], ctx, t, x)
    decreases n, alts, 0
  {
    if x in Run(g, n, alts[0], ctx).found {
      i := 0;
      t := Soundness(g, n, alts[0], ctx, x);
    } else {
      i, t := SoundAlts(g, n, alts[1..], ctx, x);
      i := i + 1;
    }
  }

  lemma {:induction false} SoundAll(g: Grammar, n: nat, m: Matcher, ctxs: seq<Context>, x: Context)
    returns (c0: Context, t: Tree)
    requires RunAll(g, n, m, ctxs).Done? && x in RunAll(g, n, m, ctxs).found
    ensures c0 in ctxs && Reaches(g, m, c0, t, x)
    decreases n, m, 2 + |ctxs|
  {
    assert ctxs[0] in ctxs;
    if x in Run(g, n, m, ctxs[0]).found {
      c0 := ctxs[0];
      t := Soundness(g, n, m, c0, x);
    } else {
      c0, t := SoundAll(g, n, m, ctxs[1..], x);
    }
  }

  lemma {:induction false} SoundSeries(g: Grammar, n: nat, ps: seq<Matcher>, ctxs: seq<Context>, x: Context)
    returns (c0: Context, ts: seq<Tree>)
    requires RunSeries(g, n, ps, ctxs).Done? && x in RunSeries(g, n, ps, ctxs).found
    ensures c0 in ctxs && DerivesSeries(g, ps, ts)
    ensures Yields(ts) <= c0.remainder && x == AfterAll(c0, ts)
    decreases n, ps, 0
  {
    if ps == [] {
      c0, ts := x, [];
      AdvanceNothing(x);
    } else {
      var step := RunAll(g, n, ps[0], ctxs);
      var c1, rest := SoundSeries(g, n, ps[1..], step.found, x);
      var t;
      c0, t := SoundAll(g, n, ps[0], ctxs, c1);
      ts := [t] + rest;
      PushOne(c0, t, rest);
    }
  }

  lemma {:induction false} SoundRepeat(g: Grammar, n: nat, m: Matcher, frontier: seq<Context>, x: Context)
    returns (c0: Context, ts: seq<Tree>)
    requires m.Repeat?
    requires RunRepeat(g, n, m, frontier).Done? && x in RunRepeat(g, n, m, frontier).found
    ensures c0 in frontier && DerivesEach(g, m.body, ts)
    ensures Yields(ts) <= c0.remainder && x == AfterAll(c0, ts)
    decreases n, m, 0
  {
    var step := RunAll(g, n, m.body, frontier);
    var c1, rest := x, [];
    if x in step.found {
      AdvanceNothing(x);
    } else {
      c1, rest := SoundRepeat(g, n - 1, m, step.found, x);
    }
    var t;
    c0, t := SoundAll(g, n, m.body, frontier, c1);
    ts := [t] + rest;
    PushOne(c0, t, rest);
  }

  // ----- completeness: every tree is found -----

  lemma {:induction false} Completeness(g: Grammar, n: nat, m: Matcher, ctx: Context, t: Tree)
    requires Derives(g, m, t) && Yield(t) <= ctx.remainder
    requires Run(g, n, m, ctx).Done?
    ensures After(ctx, t) in Run(g, n, m, ctx).found
    decreases t
  {
    match m
    case Bare(_) =>
    case Term(_) =>
      assert ctx.remainder[..1] == [ctx.remainder[0]];
    case TermType(_, _) =>
      assert ctx.remainder[..1] == [ctx.remainder[0]];
    case Choice(alts) =>
      AltsMember(g, n, alts, ctx, t.index);
      Completeness(g, n, alts[t.index], ctx, t.sub);
    case OneOrNone(body) =>
      if t.Skipped? {
        AdvanceNothing(ctx);
      } else {
        Completeness(g, n, body, ctx, t.sub);
      }
    case Repeat(body) =>
      if t.subs == [] {
        AdvanceNothing(ctx);
      } else {
        CompleteRepeat(g, n, m, [ctx], ctx, t.subs);
      }
    case RuleReference(r) =>
      var inside := ctx.(production := r);
      Completeness(g, n - 1, g.rules[r], inside, t.sub);
      UpdateSource(ctx, inside, ctx.bindings, Events(t.sub));
      var found := Run(g, n - 1, g.rules[r], inside).found;
      var i :| 0 <= i < |found| && found[i] == After(inside, t.sub);
      assert Restore(found, ctx.production)[i] == After(ctx, t);
    case RuleSeries(ps) =>
      CompleteSeries(g, n, ps, [ctx], ctx, t.subs);
    case Capture(name, collects, body) =>
      Completeness(g, n, body, ctx, t.sub);
      var found := Run(g, n, body, ctx).found;
      BindEachMembers(ctx, name, collects, found);
      var i :| 0 <= i < |found| && found[i] == After(ctx, t.sub);
      assert BindEach(ctx, name, collects, found).found[i] == BindOne(ctx, name, collects, found[i]);
      CaptureStep(ctx, name, collects, t.sub);
  }

  lemma {:induction false} AltsMember(g: Grammar, n: nat, alts: seq<Matcher>, ctx: Context, i: nat)
    requires i < |alts|
    requires RunAlts(g, n, alts, ctx).Done?
    ensures var o := Run(g, n, alts[i], ctx);
            && o.Done? && o.offers <= RunAlts(g, n, alts, ctx).offers
            && forall x | x in o.found :: x in RunAlts(g, n, alts, ctx).found
    decreases i
  {
    if i > 0 {
      AltsMember(g, n, alts[1..], ctx, i - 1);
      assert alts[i] == alts[1..][i - 1];
    }
  }

  lemma {:induction false} AllMember(g: Grammar, n: nat, m: Matcher, ctxs: seq<Context>, c0: Context)
    requires c0 in ctxs
    requires RunAll(g, n, m, ctxs).Done?
    ensures var o := Run(g, n, m, c0);
            && o.Done? && o.offers <= RunAll(g, n, m, ctxs).offers
            && forall x | x in o.found :: x in RunAll(g, n, m, ctxs).found
    decreases |ctxs|
  {
    if c0 != ctxs[0] {
      AllMember(g, n, m, ctxs[1..], c0);
    }
  }

  lemma {:induction false} CompleteSeries(g: Grammar, n: nat, ps: seq<Matcher>, ctxs: seq<Context>,
                                          c0: Context, ts: seq<Tree>)
    requires c0 in ctxs
    requires DerivesSeries(g, ps, ts) && Yields(ts) <= c0.remainder
    requires RunSeries(g, n, ps, ctxs).Done?
    ensures AfterAll(c0, ts) in RunSeries(g, n, ps, ctxs).found
    decreases ts
  {
    if ps == [] {
      AdvanceNothing(c0);
    } else {
      var t, rest := ts[0], ts[1..];
      PeelOne(c0, ts);
      AllMember(g, n, ps[0], ctxs, c0);
      Completeness(g, n, ps[0], c0, t);
      CompleteSeries(g, n, ps[1..], RunAll(g, n, ps[0], ctxs).found, After(c0, t), rest);
    }
  }

  /** A repeat that returns keeps what its first round found and what comes after. */
  lemma RoundOfRepeat(g: Grammar, n: nat, m: Matcher, frontier: seq<Context>)
    requires m.Repeat? && RunRepeat(g, n, m, frontier).Done?
    ensures var all, step := RunRepeat(g, n, m, frontier).found, RunAll(g, n, m.body, frontier);
            && step.Done? && (forall x | x in step.found :: x in all)
            && (step.found != [] ==>
                  && n > 0 && RunRepeat(g, n - 1, m, step.found).Done?
                  && forall x | x in RunRepeat(g, n - 1, m, step.found).found :: x in all)
  {}

  lemma {:induction false} CompleteRepeat(g: Grammar, n: nat, m: Matcher, frontier: seq<Context>,
                                          c0: Context, ts: seq<Tree>)
    requires m.Repeat? && c0 in frontier
    requires ts != [] && DerivesEach(g, m.body, ts) && Yields(ts) <= c0.remainder
    requires RunRepeat(g, n, m, frontier).Done?
    ensures AfterAll(c0, ts) in RunRepeat(g, n, m, frontier).found
    decreases ts
  {
    hide Run, RunRepeat, RunAll, Derives, Yields, After, AfterAll;
    var t, rest := ts[0], ts[1..];
    PeelOne(c0, ts);
    RoundOfRepeat(g, n, m, frontier);
    AllMember(g, n, m.body, frontier, c0);
    Completeness(g, n, m.body, c0, t);
    if rest == [] {
      LastStep(c0, t);
    } else {
      CompleteRepeat(g, n - 1, m, RunAll(g, n, m.body, frontier).found, After(c0, t), rest);
    }
  }

  lemma LastStep(c0: Context, t: Tree)
    requires Yield(t) <= c0.remainder
    ensures AfterAll(After(c0, t), []) == After(c0, t)
  {
    AdvanceNothing(After(c0, t));
  }

  /** The contexts found are exactly those some derivation tree leads to. */
  lemma FoundExactly(g: Grammar, n: nat, m: Matcher, ctx: Context, x: Context)
    requires Run(g, n, m, ctx).Done?
    ensures x in Run(g, n, m, ctx).found <==> exists t :: Reaches(g, m, ctx, t, x)
  {
    if x in Run(g, n, m, ctx).found {
      var t := Soundness(g, n, m, ctx, x);
    }
    if t :| Reaches(g, m, ctx, t, x) {
      Completeness(g, n, m, ctx, t);
    }
  }
}
