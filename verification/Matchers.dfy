/** The matchers of the parser-combinator engine (cqlshlib/pylexotron.py).

    A matcher turns a parse context into the list of all contexts it can reach,
    and, when the tokens run out, offers the terminals that could come next.
    `Run` is what `match` computes, as a function of the grammar; the methods of
    `MatchEngine` are the loops of the original and are proved against it. */
module Matchers {

  /** A lexed token: its type, its text and its span in the source text. */
  datatype Token = Token(kind: string, text: string, start: nat, stop: nat)

  datatype Binding = Single(text: string) | Many(items: seq<string>)

  /** ParseContext. The source text ('*SRC*') is kept beside the bindings: rule
      notation only produces names made of letters, digits and '_'. */
  datatype Context = Context(
    src: string, hasSrc: bool,
    bindings: map<string, Binding>,
    matched: seq<Token>,
    remainder: seq<Token>,
    production: string)

  datatype Completion = Literal(text: string) | Hint(tag: string)

  /** A terminal; `lit` is a quoted literal as written in the rule. */
  datatype Terminal = Regex(pat: string) | Text(lit: string) | Word(lit: string) | Case(lit: string)

  datatype Matcher =
    | Term(term: Terminal)
    | TermType(kind: string, sub: Terminal)
    | Choice(alts: seq<Matcher>)
    | OneOrNone(body: Matcher)
    | Repeat(body: Matcher)
    | RuleReference(rule: string)
    | RuleSeries(pieces: seq<Matcher>)
    | Capture(name: string, collects: bool, body: Matcher)
    | Bare(name: string)  // the tuple a JUNK token leaves inside a rule, which has no match method

  datatype MatchError = UnknownRule(rule: string) | MixedBinding(name: string) | NotAMatcher(name: string)

  /** What one call of `match` does: return the contexts found and add the offers to
      the completions, raise, or be still at work. */
  datatype Outcome = Done(found: seq<Context>, offers: set<Completion>) | Raised(error: MatchError) | Pending

  type Completer = Context -> set<Completion>

  /** A rule set. Regular expressions and the evaluation of quoted literals are
      parameters: `accepts(pat, text)` and `literal(lit)`. A completer is
      registered under a production and a symbol name. */
  datatype Grammar = Grammar(
    rules: map<string, Matcher>,
    completers: map<(string, string), Completer>,
    accepts: (string, string) -> bool,
    literal: string -> string)

  // ----- terminals -----

  function LowerChar(c: char): char {
    if 'A' <= c <= 'Z' then c - 'A' + 'a' else c
  }

  function Lower(s: string): (r: string)
    ensures |r| == |s|
  {
    seq(|s|, i requires 0 <= i < |s| => LowerChar(s[i]))
  }

  /** The two are one letter, up to its case. */
  predicate SameLetter(a: char, b: char) {
    a == b || ('A' <= a <= 'Z' && b as int == a as int + 32) || ('A' <= b <= 'Z' && a as int == b as int + 32)
  }

  predicate SameText(a: string, b: string) {
    |a| == |b| && forall i | 0 <= i < |a| :: SameLetter(a[i], b[i])
  }

  lemma LowerLetter(a: char, b: char)
    ensures LowerChar(a) == LowerChar(b) <==> SameLetter(a, b)
    ensures SameLetter(a, LowerChar(a)) && !('A' <= LowerChar(a) <= 'Z')
  {}

  lemma LowerAlike(s: string, t: string)
    ensures Lower(s) == Lower(t) <==> SameText(s, t)
  {
    hide LowerChar, SameLetter;
    forall a, b ensures LowerChar(a) == LowerChar(b) <==> SameLetter(a, b) {
      LowerLetter(a, b);
    }
    if Lower(s) == Lower(t) {
      assert |s| == |Lower(s)| == |t|;
      forall i | 0 <= i < |s| ensures SameLetter(s[i], t[i]) {
        assert Lower(s)[i] == Lower(t)[i];
      }
    }
  }

  /** lower() leaves no capitals and changes nothing else. */
  lemma LowerMeans(s: string)
    ensures SameText(s, Lower(s)) && forall i | 0 <= i < |s| :: !('A' <= Lower(s)[i] <= 'Z')
    ensures forall t :: Lower(s) == Lower(t) <==> SameText(s, t)
  {
    hide LowerChar, SameLetter;
    forall i | 0 <= i < |s| ensures SameLetter(s[i], Lower(s)[i]) && !('A' <= Lower(s)[i] <= 'Z') {
      LowerLetter(s[i], s[i]);
    }
    forall t ensures Lower(s) == Lower(t) <==> SameText(s, t) {
      LowerAlike(s, t);
    }
  }

  predicate TermAccepts(g: Grammar, t: Terminal, tok: Token) {
    match t
    case Regex(pat) => g.accepts(pat, tok.text)
    case Text(lit) => Lower(g.literal(lit)) == Lower(tok.text)
    case Word(lit) => Lower(g.literal(lit)) == Lower(tok.text)
    case Case(lit) => g.literal(lit) == tok.text
  }

  function TermOffer(g: Grammar, t: Terminal, production: string): Completion {
    if t.Regex? then Hint("<" + production + ">") else Literal(g.literal(t.lit))
  }

  /** Does a terminal matcher take this token? */
  predicate Takes(g: Grammar, m: Matcher, tok: Token)
    requires m.Term? || m.TermType?
  {
    if m.Term? then TermAccepts(g, m.term, tok) else tok.kind == m.kind
  }

  // ----- contexts -----

  function WithMatch(ctx: Context, num: nat): Context
    requires num <= |ctx.remainder|
  {
    ctx.(matched := ctx.matched + ctx.remainder[..num], remainder := ctx.remainder[num..])
  }

  function Min(a: int, b: int): int {
    if a < b then a else b
  }

  /** Python's `s[lo:hi]` for non-negative bounds: both are cut to the length. */
  function Slice(s: string, lo: nat, hi: nat): string {
    var l, h := Min(lo, |s|), Min(hi, |s|);
    if l <= h then s[l..h] else ""
  }

  function JoinTexts(toks: seq<Token>): string {
    if toks == [] then "" else if |toks| == 1 then toks[0].text
    else toks[0].text + " " + JoinTexts(toks[1..])
  }

  /** extract_orig: the source text spanned by the tokens, or a guess at it. */
  function ExtractOrig(src: string, hasSrc: bool, toks: seq<Token>): string {
    if toks == [] then ""
    else if !hasSrc then JoinTexts(toks)
    else Slice(src, toks[0].start, toks[|toks| - 1].stop)
  }

  /** The binding a capture makes; a collector that meets a plain string raises. */
  function Bound(b: map<string, Binding>, name: string, collects: bool, text: string): map<string, Binding>
  {
    if !collects then b[name := Single(text)]
    else b[name := Many((if name in b && b[name].Many? then b[name].items else []) + [text])]
  }

  predicate Clashes(b: map<string, Binding>, name: string, collects: bool) {
    collects && name in b && b[name].Single?
  }

  /** What a registered completer answers: only asked once the tokens are used up. */
  predicate Intercepted(g: Grammar, ctx: Context, name: string) {
    ctx.remainder == [] && (ctx.production, name) in g.completers
  }

  // ----- what match computes -----

  function Join(a: Outcome, b: Outcome): Outcome {
    if !a.Done? then a else if !b.Done? then b
    else Done(a.found + b.found, a.offers + b.offers)
  }

  /** named_symbol / named_collector: bind what each match consumed. */
  function BindEach(ctx: Context, name: string, collects: bool, found: seq<Context>): (o: Outcome)
    ensures !o.Pending?
  {
    if found == [] then Done([], {})
    else if Clashes(found[0].bindings, name, collects) then Raised(MixedBinding(name))
    else Join(Done([BindOne(ctx, name, collects, found[0])], {}),
              BindEach(ctx, name, collects, found[1..]))
  }

  function BindOne(ctx: Context, name: string, collects: bool, c: Context): Context {
    var toks := c.matched[Min(|ctx.matched|, |c.matched|)..];
    c.(bindings := Bound(c.bindings, name, collects, ExtractOrig(ctx.src, ctx.hasSrc, toks)))
  }

  function Restore(found: seq<Context>, production: string): seq<Context> {
    seq(|found|, i requires 0 <= i < |found| => found[i].(production := production))
  }

  /** What a call of `match` has come to once `n` rule references and rounds of a
      repeat may be nested: pending where that is not enough. */
  function Run(g: Grammar, n: nat, m: Matcher, ctx: Context): Outcome
    decreases n, m, 1
  {
    match m
    case Term(t) =>
      if ctx.remainder == [] then Done([], {TermOffer(g, t, ctx.production)})
      else if Takes(g, m, ctx.remainder[0]) then Done([WithMatch(ctx, 1)], {})
      else Done([], {})
    case TermType(_, t) =>
      if ctx.remainder == [] then Done([], {TermOffer(g, t, ctx.production)})
      else if Takes(g, m, ctx.remainder[0]) then Done([WithMatch(ctx, 1)], {})
      else Done([], {})
    case Choice(alts) => RunAlts(g, n, alts, ctx)
    case OneOrNone(body) => Join(Done([ctx], {}), Run(g, n, body, ctx))
    case Repeat(body) => Join(Done([ctx], {}), RunRepeat(g, n, m, [ctx]))
    case RuleReference(r) =>
      if r !in g.rules then Raised(UnknownRule(r))
      else if n == 0 then Pending
      else
        var inner := Run(g, n - 1, g.rules[r], ctx.(production := r));
        if inner.Done? then Done(Restore(inner.found, ctx.production), inner.offers) else inner
    case RuleSeries(ps) => RunSeries(g, n, ps, [ctx])
    case Capture(name, collects, body) =>
      var inner := Run(g, n, body, ctx);
      if !inner.Done? then inner
      else
        var b := BindEach(ctx, name, collects, inner.found);
        if !b.Done? then b
        else Done(b.found,
                  if Intercepted(g, ctx, name) then g.completers[(ctx.production, name)](ctx)
                  else inner.offers)
    case Bare(name) => Raised(NotAMatcher(name))
  }

  function RunAlts(g: Grammar, n: nat, alts: seq<Matcher>, ctx: Context): Outcome
    decreases n, alts, 0
  {
    if alts == [] then Done([], {})
    else Join(Run(g, n, alts[0], ctx), RunAlts(g, n, alts[1..], ctx))
  }

  function RunAll(g: Grammar, n: nat, m: Matcher, ctxs: seq<Context>): Outcome
    decreases n, m, 2 + |ctxs|
  {
    if ctxs == [] then Done([], {})
    else Join(Run(g, n, m, ctxs[0]), RunAll(g, n, m, ctxs[1..]))
  }

  function RunSeries(g: Grammar, n: nat, ps: seq<Matcher>, ctxs: seq<Context>): Outcome
    decreases n, ps, 0
  {
    if ps == [] then Done(ctxs, {})
    else
      var step := RunAll(g, n, ps[0], ctxs);
      if !step.Done? || step.found == [] then step
      else
        var rest := RunSeries(g, n, ps[1..], step.found);
        if rest.Done? then Done(rest.found, step.offers + rest.offers) else rest
  }

  /** The rounds of a repeat that are left. */
  function RunRepeat(g: Grammar, n: nat, m: Matcher, frontier: seq<Context>): Outcome
    requires m.Repeat?
    decreases n, m, 0
  {
    var step := RunAll(g, n, m.body, frontier);
    if !step.Done? || step.found == [] then step
    else if n == 0 then Pending
    else Join(step, RunRepeat(g, n - 1, m, step.found))
  }

  /** The match comes to an end: it returns or raises. */
  ghost predicate Halts(g: Grammar, m: Matcher, ctx: Context) {
    exists n :: !Run(g, n, m, ctx).Pending?
  }

  lemma {:induction false} BindEachMembers(ctx: Context, name: string, collects: bool, found: seq<Context>)
    ensures var b := BindEach(ctx, name, collects, found);
            b.Done? <==> forall y | y in found :: !Clashes(y.bindings, name, collects)
    ensures var b := BindEach(ctx, name, collects, found);
            b.Done? ==>
              && b.offers == {} && |b.found| == |found|
              && forall i | 0 <= i < |found| :: b.found[i] == BindOne(ctx, name, collects, found[i])
  {
    if found == [] {
    } else {
      BindEachMembers(ctx, name, collects, found[1..]);
      assert found == [found[0]] + found[1..];
    }
  }
}
