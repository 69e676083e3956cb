/** What a match leaves bound, name by name: the captures of the derivation, without the
    steps by which they were bound. */
module Captures {
  import opened Matchers
  import opened Derivations
  import opened Listings
  import opened Reports

  /** The captures of one name, in order. */
  function Of(evs: seq<Event>, name: string): seq<Event> {
    if evs == [] then []
    else Of(evs[..|evs| - 1], name) + (if evs[|evs| - 1].name == name then [evs[|evs| - 1]] else [])
  }

  /** The source text of each capture. */
  function Texts(ctx: Context, evs: seq<Event>): seq<string> {
    seq(|evs|, i requires 0 <= i < |evs| => ExtractOrig(ctx.src, ctx.hasSrc, evs[i].toks))
  }

  /** The text of a capture: the stretch of the source from the first token to the last,
      cut where the source ends, or without a source the tokens with single blanks. */
  lemma {:induction false} TextOfCapture(ctx: Context, toks: seq<Token>, more: seq<Token>)
    requires toks != []
    ensures var lo, hi, text := toks[0].start, toks[|toks| - 1].stop, ExtractOrig(ctx.src, ctx.hasSrc, toks);
            ctx.hasSrc ==>
              && (lo <= hi <= |ctx.src| ==> text == ctx.src[lo..hi])
              && (lo <= |ctx.src| < hi ==> text == ctx.src[lo..])
              && (hi < lo || |ctx.src| < lo ==> text == "")
    ensures !ctx.hasSrc && |toks| == 1 ==> ExtractOrig(ctx.src, ctx.hasSrc, toks) == toks[0].text
    ensures !ctx.hasSrc && more != [] ==>
              ExtractOrig(ctx.src, ctx.hasSrc, toks + more)
              == ExtractOrig(ctx.src, ctx.hasSrc, toks) + " " + ExtractOrig(ctx.src, ctx.hasSrc, more)
    ensures ExtractOrig(ctx.src, ctx.hasSrc, []) == ""
  {
    if !ctx.hasSrc && more != [] {
      JoinedTexts(toks, more);
    }
  }

  lemma {:induction false} JoinedTexts(a: seq<Token>, b: seq<Token>)
    requires a != [] && b != []
    ensures JoinTexts(a + b) == JoinTexts(a) + " " + JoinTexts(b)
  {
    if |a| == 1 {
      assert (a + b)[1..] == b;
    } else {
      assert (a + b)[1..] == a[1..] + b;
      JoinedTexts(a[1..], b);
      assert a[0].text + " " + (JoinTexts(a[1..]) + " " + JoinTexts(b))
          == a[0].text + " " + JoinTexts(a[1..]) + " " + JoinTexts(b);
    }
  }

  /** How `name` is bound in `after`, when it was bound as in `before` and then captured
      as in `caps`: not captured, it is as before; a symbol has the text of its last
      capture; a collector, which then met no plain string, the old items and after them
      the texts of its captures in order. */
  ghost predicate NameBound(ctx: Context, before: map<string, Binding>, caps: seq<Event>, name: string,
                            after: map<string, Binding>)
  {
    if caps == [] then (name in after <==> name in before) && (name in before ==> after[name] == before[name])
    else if !caps[|caps| - 1].collects then
      name in after && after[name] == Single(Texts(ctx, caps)[|caps| - 1])
    else
      && (forall i | 0 <= i < |caps| :: caps[i].collects)
      && (name in before ==> before[name].Many?)
      && name in after
      && after[name] == Many((if name in before then before[name].items else []) + Texts(ctx, caps))
  }

  ghost predicate Bindings(ctx: Context, t: Tree, after: map<string, Binding>) {
    forall name :: NameBound(ctx, ctx.bindings, Of(Events(t), name), name, after)
  }

  /** No capture meets a binding of the other kind. */
  ghost predicate Clean(ctx: Context, b: map<string, Binding>, evs: seq<Event>) {
    forall i | 0 <= i < |evs| :: !Clashes(Update(ctx, b, evs[..i]), evs[i].name, evs[i].collects)
  }

  lemma LastOf(evs: seq<Event>, name: string)
    requires evs != []
    ensures var e := evs[|evs| - 1];
            Of(evs, name) == Of(evs[..|evs| - 1], name) + (if e.name == name then [e] else [])
  {}

  lemma NoneOf(ctx: Context, b: map<string, Binding>, name: string)
    ensures NameBound(ctx, b, Of([], name), name, Update(ctx, b, []))
  {}

  lemma CleanBefore(ctx: Context, b: map<string, Binding>, evs: seq<Event>, n: nat)
    requires Clean(ctx, b, evs) && n < |evs|
    ensures Clean(ctx, b, evs[..n]) && !Clashes(Update(ctx, b, evs[..n]), evs[n].name, evs[n].collects)
  {
    hide Update, Clashes;
    forall i | 0 <= i < n
      ensures !Clashes(Update(ctx, b, evs[..n][..i]), evs[..n][i].name, evs[..n][i].collects)
    {
      assert evs[..n][..i] == evs[..i] && !Clashes(Update(ctx, b, evs[..i]), evs[i].name, evs[i].collects);
    }
  }

  lemma {:induction false} CleanBinds(ctx: Context, b: map<string, Binding>, evs: seq<Event>, name: string)
    requires Clean(ctx, b, evs)
    ensures NameBound(ctx, b, Of(evs, name), name, Update(ctx, b, evs))
    decreases |evs|
  {
    hide *;
    if evs == [] {
      NoneOf(ctx, b, name);
    } else {
      var n := |evs| - 1;
      var init, e := evs[..n], evs[n];
      CleanBefore(ctx, b, evs, n);
      CleanBinds(ctx, b, init, name);
      BindsOneMore(ctx, b, Of(init, name), name, Update(ctx, b, init), e);
      UpdateLast(ctx, b, init, e);
      assert evs == init + [e];
      LastOf(evs, name);
    }
  }

  lemma BindsOneMore(ctx: Context, b: map<string, Binding>, caps: seq<Event>, name: string, mid: map<string, Binding>,
                     e: Event)
    requires NameBound(ctx, b, caps, name, mid) && !Clashes(mid, e.name, e.collects)
    ensures var after := Bound(mid, e.name, e.collects, ExtractOrig(ctx.src, ctx.hasSrc, e.toks));
            NameBound(ctx, b, caps + (if e.name == name then [e] else []), name, after)
  {
    hide ExtractOrig;
    if e.name == name {
      var more := caps + [e];
      assert Texts(ctx, more) == Texts(ctx, caps) + [ExtractOrig(ctx.src, ctx.hasSrc, e.toks)];
    } else {
      assert caps + [] == caps;
    }
  }

  // ----- a match that returns is clean -----

  lemma SplitEvents(ctx: Context, t: Tree, rest: seq<Tree>, i: nat)
    requires Yield(t) <= ctx.remainder && |Events(t)| <= i < |Events(t) + EventsOf(rest)|
    ensures var evs, c1, j := Events(t) + EventsOf(rest), After(ctx, t), i - |Events(t)|;
            && evs[i] == EventsOf(rest)[j]
            && Update(ctx, ctx.bindings, evs[..i]) == Update(c1, c1.bindings, EventsOf(rest)[..j])
  {
    var evs, c1, j := Events(t) + EventsOf(rest), After(ctx, t), i - |Events(t)|;
    assert evs[..i] == Events(t) + EventsOf(rest)[..j];
    UpdateAppend(ctx, ctx.bindings, Events(t), EventsOf(rest)[..j]);
    UpdateSource(ctx, c1, c1.bindings, EventsOf(rest)[..j]);
  }

  ghost predicate ClashesAt(ctx: Context, evs: seq<Event>, i: nat)
    requires i < |evs|
  {
    Clashes(Update(ctx, ctx.bindings, evs[..i]), evs[i].name, evs[i].collects)
  }

  /** A capture that meets the other kind is an error some path leads to. */
  lemma {:induction false} ClashSeen(g: Grammar, m: Matcher, ctx: Context, t: Tree, i: nat) returns (p: Path)
    requires Derives(g, m, t) && Yield(t) <= ctx.remainder
    requires i < |Events(t)| && ClashesAt(ctx, Events(t), i)
    ensures Sees(g, m, ctx, p, Fault(MixedBinding(Events(t)[i].name)))
    decreases t, 1
  {
    match m
    case Choice(alts) =>
      var sub := ClashSeen(g, alts[t.index], ctx, t.sub, i);
      p := Via(t.index, sub);
    case OneOrNone(body) =>
      var sub := ClashSeen(g, body, ctx, t.sub, i);
      p := Into(sub);
    case Repeat(body) =>
      var done, sub := ClashSeenEach(g, body, ctx, t.subs, i);
      p := Past(done, sub);
    case RuleReference(r) =>
      var inside := ctx.(production := r);
      UpdateSource(ctx, inside, ctx.bindings, Events(t)[..i]);
      var sub := ClashSeen(g, g.rules[r], inside, t.sub, i);
      p := Into(sub);
    case RuleSeries(ps) =>
      var done, sub := ClashSeenSeries(g, ps, ctx, t.subs, i);
      p := Past(done, sub);
    case Capture(name, collects, body) =>
      var inner := Events(t.sub);
      if i < |inner| {
        assert Events(t)[..i] == inner[..i] && Events(t)[i] == inner[i];
        var sub := ClashSeen(g, body, ctx, t.sub, i);
        p := Into(sub);
      } else {
        assert Events(t)[..i] == inner;
        p := Clash(t.sub);
      }
  }

  lemma {:induction false} ClashSeenEach(g: Grammar, m: Matcher, ctx: Context, ts: seq<Tree>, i: nat)
    returns (done: seq<Tree>, p: Path)
    requires DerivesEach(g, m, ts) && Yields(ts) <= ctx.remainder
    requires i < |EventsOf(ts)| && ClashesAt(ctx, EventsOf(ts), i)
    ensures DerivesEach(g, m, done) && Yields(done) <= ctx.remainder
    ensures Sees(g, m, AfterAll(ctx, done), p, Fault(MixedBinding(EventsOf(ts)[i].name)))
    decreases ts, 0
  {
    PeelOne(ctx, ts);
    var first := Events(ts[0]);
    if i < |first| {
      assert EventsOf(ts)[..i] == first[..i];
      p := ClashSeen(g, m, ctx, ts[0], i);
      done := [];
      AdvanceNothing(ctx);
    } else {
      SplitEvents(ctx, ts[0], ts[1..], i);
      var rest;
      rest, p := ClashSeenEach(g, m, After(ctx, ts[0]), ts[1..], i - |first|);
      done := [ts[0]] + rest;
      PushOne(ctx, ts[0], rest);
      assert done[1..] == rest;
    }
  }

  lemma {:induction false} ClashSeenSeries(g: Grammar, ps: seq<Matcher>, ctx: Context, ts: seq<Tree>, i: nat)
    returns (done: seq<Tree>, p: Path)
    requires DerivesSeries(g, ps, ts) && Yields(ts) <= ctx.remainder
    requires i < |EventsOf(ts)| && ClashesAt(ctx, EventsOf(ts), i)
    ensures |done| < |ps| && DerivesSeries(g, ps[..|done|], done) && Yields(done) <= ctx.remainder
    ensures Sees(g, ps[|done|], AfterAll(ctx, done), p, Fault(MixedBinding(EventsOf(ts)[i].name)))
    decreases ts, 0
  {
    PeelOne(ctx, ts);
    var first, s := Events(ts[0]), Fault(MixedBinding(EventsOf(ts)[i].name));
    if i < |first| {
      assert EventsOf(ts)[..i] == first[..i];
      p := ClashSeen(g, ps[0], ctx, ts[0], i);
      done := [];
      FirstPath(g, ps, ctx, p, s);
    } else {
      SplitEvents(ctx, ts[0], ts[1..], i);
      var rest;
      rest, p := ClashSeenSeries(g, ps[1..], After(ctx, ts[0]), ts[1..], i - |first|);
      done := [ts[0]] + rest;
      PushPath(g, ps, ctx, After(ctx, ts[0]), ts[0], rest, p, s);
    }
  }

  // ----- the main result -----

  /** Whatever a match that returns finds by a derivation has the bindings of before and
      the captures of the derivation: symbols their last text, collectors all texts in
      order behind the old ones, and every other name as it was. */
  lemma FoundBindings(g: Grammar, n: nat, m: Matcher, ctx: Context, t: Tree, x: Context)
    requires Run(g, n, m, ctx).Done? && Reaches(g, m, ctx, t, x)
    ensures Bindings(ctx, t, x.bindings)
  {
    forall i | 0 <= i < |Events(t)|
      ensures !Clashes(Update(ctx, ctx.bindings, Events(t)[..i]), Events(t)[i].name, Events(t)[i].collects)
    {
      if ClashesAt(ctx, Events(t), i) {
        var p := ClashSeen(g, m, ctx, t, i);
        ReportsExactly(g, n, m, ctx, Fault(MixedBinding(Events(t)[i].name)));
        assert false;
      }
    }
    forall name ensures NameBound(ctx, ctx.bindings, Of(Events(t), name), name, x.bindings) {
      CleanBinds(ctx, ctx.bindings, Events(t), name);
    }
  }

  /** The contexts are those of all fitting derivations in order, each with the bindings
      its captures make. */
  ghost predicate Explained(g: Grammar, m: Matcher, ctx: Context, found: seq<Context>) {
    exists ts ::
      && Lists(g, m, ctx, ts, found)
      && forall i | 0 <= i < |ts| :: Bindings(ctx, ts[i], found[i].bindings)
  }

  lemma ReturnsExplained(g: Grammar, n: nat, m: Matcher, ctx: Context)
    requires Run(g, n, m, ctx).Done?
    ensures Explained(g, m, ctx, Run(g, n, m, ctx).found)
  {
    hide Run, Bindings, Reaches, Fits, Sorted;
    var found := Run(g, n, m, ctx).found;
    var ts := ListedInOrder(g, n, m, ctx);
    forall i | 0 <= i < |ts| ensures Bindings(ctx, ts[i], found[i].bindings) {
      FoundBindings(g, n, m, ctx, ts[i], found[i]);
    }
  }
}
