/** Writing a matcher as rule tokens. Reading the tokens back gives the same matcher,
    for exactly the matchers that can be read at all. */
module RulePrinter {
  import opened Common
  import opened Matchers
  import opened RuleReader

  /** The matchers the notation can name: mkrule never leaves a series of one piece,
      a choice has two branches or more, and a literal's class follows its first
      character. Token types only arise where a rule is defined. */
  predicate Printable(m: Matcher) {
    match m
    case Term(Regex(_)) => true
    case Term(Case(_)) => true
    case Term(Word(lit)) => |lit| >= 2 && LetterOrDigit(lit[1])
    case Term(Text(lit)) => |lit| >= 2 && !LetterOrDigit(lit[1])
    case TermType(_, _) => false
    case Bare(_) => true
    case Choice(alts) => |alts| >= 2 && PrintableAll(alts)
    case OneOrNone(body) => Printable(body)
    case Repeat(body) => Printable(body)
    case RuleReference(_) => true
    case RuleSeries(ps) => |ps| != 1 && PrintableAll(ps)
    case Capture(_, _, body) => Printable(body)
  }

  /** ASCII letters, digits and the underscore, by code. */
  predicate LetterOrDigit(c: char) {
    var n := c as int;
    48 <= n <= 57 || 65 <= n <= 90 || 97 <= n <= 122 || n == 95
  }

  lemma WordCharIs(c: char)
    ensures WordChar(c) <==> LetterOrDigit(c)
  {}

  predicate PrintableAll(ms: seq<Matcher>) {
    ms == [] || (Printable(ms[0]) && PrintableAll(ms[1..]))
  }

  function Parens(toks: seq<RuleToken>): seq<RuleToken> {
    [Punct('(')] + toks + [Punct(')')]
  }

  function CaptureTok(name: string, collects: bool): RuleToken {
    if collects then CollectorTok(name) else SymbolTok(name)
  }

  /** One rule among others. */
  function PrintItem(m: Matcher): seq<RuleToken>
    decreases m, 0
  {
    match m
    case Term(Regex(pat)) => [RegexTok(pat)]
    case Term(Case(lit)) => [Punct('@'), LitTok(lit)]
    case Term(Word(lit)) => [LitTok(lit)]
    case Term(Text(lit)) => [LitTok(lit)]
    case TermType(kind, _) => [ReferenceTok(kind)]
    case Bare(name) => [JunkTok(name)]
    case Choice(alts) => Parens(PrintBranches(alts))
    case OneOrNone(body) => PrintItem(body) + [Punct('?')]
    case Repeat(body) => PrintItem(body) + [Punct('*')]
    case RuleReference(r) => [ReferenceTok(r)]
    case RuleSeries(ps) => Parens(PrintItems(ps))
    case Capture(name, collects, body) => [CaptureTok(name, collects)] + PrintAtom(body)
  }

  function PrintItems(ms: seq<Matcher>): seq<RuleToken>
    decreases ms, 0
  {
    if ms == [] then [] else PrintItem(ms[0]) + PrintItems(ms[1..])
  }

  /** What follows 'name=': postfix operators would bind to the capture. */
  function PrintAtom(m: Matcher): seq<RuleToken>
    decreases m, 1
  {
    if Postfix(m) then Parens(PrintItem(m)) else PrintItem(m)
  }

  function PrintBranch(m: Matcher): seq<RuleToken>
    decreases m, 1
  {
    if m.RuleSeries? then PrintItems(m.pieces) else PrintItem(m)
  }

  function PrintBranches(alts: seq<Matcher>): seq<RuleToken>
    decreases alts, 0
  {
    if alts == [] then []
    else if |alts| == 1 then PrintBranch(alts[0])
    else PrintBranch(alts[0]) + [Punct('|')] + PrintBranches(alts[1..])
  }

  /** A whole rule. */
  function PrintBody(m: Matcher): seq<RuleToken> {
    if m.Choice? then PrintBranches(m.alts) else PrintBranch(m)
  }

  function PrintRules(defs: seq<(string, Matcher)>): seq<RuleToken> {
    if defs == [] then []
    else [ReferenceTok(defs[0].0), Assign] + PrintBody(defs[0].1) + [Punct(';')] + PrintRules(defs[1..])
  }

  // ----- reading back -----

  predicate Closing(c: char) {
    c == ';' || c == ')'
  }

  predicate Postfix(m: Matcher) {
    m.OneOrNone? || m.Repeat?
  }

  /** The printed rule is one item of the loop. */
  ghost predicate IsItem(m: Matcher, cur: seq<Matcher>, rest: seq<RuleToken>) {
    var toks := PrintItem(m) + rest;
    && toks != [] && !(toks[0].Punct? && (Closing(toks[0].c) || toks[0].c == '|'))
    && ReadItem(cur, toks[0], toks[1..]) == Ok(Item(m, cur, rest))
  }

  lemma TerminalIsItem(m: Matcher, cur: seq<Matcher>, rest: seq<RuleToken>)
    requires Printable(m) && (m.Term? || m.RuleReference? || m.Bare?)
    ensures IsItem(m, cur, rest)
  {
    hide WordChar, LetterOrDigit, Finish, MkRule, ReadLoop;
    var toks := PrintItem(m) + rest;
    if m.Term? && m.term.Case? {
      assert toks[1..][0] == LitTok(m.term.lit) && toks[1..][1..] == rest;
    } else {
      assert toks[1..] == rest;
      if m.Term? && !m.term.Regex? {
        WordCharIs(m.term.lit[1]);
      }
    }
  }

  lemma GroupIsItem(m: Matcher, body: seq<RuleToken>, cur: seq<Matcher>, rest: seq<RuleToken>)
    requires PrintItem(m) == Parens(body)
    requires ReadUntil(Until(')'), body + [Punct(')')] + rest) == Ok(Read(m, rest))
    ensures IsItem(m, cur, rest)
  {
    hide ReadLoop, PrintItem;
    var toks := Parens(body) + rest;
    assert toks[0] == Punct('(') && toks[1..] == body + [Punct(')')] + rest;
  }

  lemma CaptureIsItem(m: Matcher, cur: seq<Matcher>, rest: seq<RuleToken>)
    requires m.Capture? && ReadUntil(Count(1), PrintAtom(m.body) + rest) == Ok(Read(m.body, rest))
    ensures IsItem(m, cur, rest)
  {
    hide ReadLoop, PrintAtom;
    var toks := PrintItem(m) + rest;
    assert toks[0] == CaptureTok(m.name, m.collects) && toks[1..] == PrintAtom(m.body) + rest;
  }

  /** Without a postfix operator, a rule is one item of the loop. */
  lemma {:induction false} HeadReads(m: Matcher, cur: seq<Matcher>, rest: seq<RuleToken>)
    requires Printable(m) && !Postfix(m)
    ensures IsItem(m, cur, rest)
    decreases m, 0
  {
    hide IsItem, ReadLoop, Finish, PrintBranches, PrintItems;
    match m
    case Choice(alts) =>
      BranchesRead(alts, ')', [], rest);
      FinishChoice(alts);
      GroupIsItem(m, PrintBranches(alts), cur, rest);
    case RuleSeries(ps) =>
      SeriesReads(ps, rest);
      GroupIsItem(m, PrintItems(ps), cur, rest);
    case Capture(name, collects, body) =>
      AtomReads(body, rest);
      CaptureIsItem(m, cur, rest);
    case _ => TerminalIsItem(m, cur, rest);
  }

  lemma {:induction false} ItemReads(m: Matcher, c: char, done: seq<seq<Matcher>>, cur: seq<Matcher>,
                                     rest: seq<RuleToken>)
    requires Printable(m) && Closing(c)
    ensures ReadLoop(Until(c), done, cur, PrintItem(m) + rest) == ReadLoop(Until(c), done, cur + [m], rest)
    decreases m, 1
  {
    if m.OneOrNone? {
      PostfixReads(m.body, '?', c, done, cur, rest);
    } else if m.Repeat? {
      PostfixReads(m.body, '*', c, done, cur, rest);
    } else {
      HeadReads(m, cur, rest);
    }
  }

  lemma {:induction false} PostfixReads(body: Matcher, op: char, c: char, done: seq<seq<Matcher>>, cur: seq<Matcher>,
                                        rest: seq<RuleToken>)
    requires Printable(body) && Closing(c) && (op == '?' || op == '*')
    ensures var m := if op == '?' then OneOrNone(body) else Repeat(body);
            ReadLoop(Until(c), done, cur, PrintItem(body) + [Punct(op)] + rest)
            == ReadLoop(Until(c), done, cur + [m], rest)
    decreases body, 3
  {
    var after := [Punct(op)] + rest;
    assert PrintItem(body) + [Punct(op)] + rest == PrintItem(body) + after;
    ItemReads(body, c, done, cur, after);
    assert after[1..] == rest && (cur + [body])[..|cur|] == cur;
  }

  lemma {:induction false} ItemsRead(ms: seq<Matcher>, c: char, done: seq<seq<Matcher>>, cur: seq<Matcher>,
                                     rest: seq<RuleToken>)
    requires PrintableAll(ms) && Closing(c)
    ensures ReadLoop(Until(c), done, cur, PrintItems(ms) + rest) == ReadLoop(Until(c), done, cur + ms, rest)
    decreases ms, 0
  {
    hide ReadLoop, PrintItem, PrintItems;
    FirstItem(ms, rest);
    if ms == [] {
      assert cur + [] == cur;
    } else {
      var tail := PrintItems(ms[1..]) + rest;
      ItemReads(ms[0], c, done, cur, tail);
      ItemsRead(ms[1..], c, done, cur + [ms[0]], rest);
      assert cur + [ms[0]] + ms[1..] == cur + ms;
    }
  }

  lemma FirstItem(ms: seq<Matcher>, rest: seq<RuleToken>)
    ensures ms == [] ==> PrintItems(ms) + rest == rest
    ensures ms != [] ==> PrintItems(ms) + rest == PrintItem(ms[0]) + (PrintItems(ms[1..]) + rest)
  {
    hide PrintItem;
  }

  /** The rules a branch consists of; mkrule puts them together again. */
  function Pieces(m: Matcher): seq<Matcher> {
    if m.RuleSeries? then m.pieces else [m]
  }

  function PiecesEach(ms: seq<Matcher>): (r: seq<seq<Matcher>>)
    ensures |r| == |ms|
  {
    seq(|ms|, i requires 0 <= i < |ms| => Pieces(ms[i]))
  }

  lemma {:induction false} BranchReads(m: Matcher, c: char, done: seq<seq<Matcher>>, rest: seq<RuleToken>)
    requires Printable(m) && Closing(c)
    ensures ReadLoop(Until(c), done, [], PrintBranch(m) + rest) == ReadLoop(Until(c), done, Pieces(m), rest)
    decreases m, 2
  {
    if m.RuleSeries? {
      ItemsRead(m.pieces, c, done, [], rest);
      assert [] + m.pieces == m.pieces;
    } else {
      ItemReads(m, c, done, [], rest);
      assert [] + [m] == [m];
    }
  }

  lemma {:induction false} FirstBranchReads(alts: seq<Matcher>, c: char, done: seq<seq<Matcher>>,
                                            rest: seq<RuleToken>)
    requires |alts| > 1 && PrintableAll(alts) && Closing(c)
    ensures ReadLoop(Until(c), done, [], PrintBranches(alts) + rest)
         == ReadLoop(Until(c), done + [Pieces(alts[0])], [], PrintBranches(alts[1..]) + rest)
    decreases alts, 0
  {
    var more := PrintBranches(alts[1..]) + rest;
    var tail := [Punct('|')] + more;
    assert PrintBranches(alts) + rest == PrintBranch(alts[0]) + tail;
    hide ReadLoop, PrintBranch, PrintBranches, Pieces;
    BranchReads(alts[0], c, done, tail);
    LoopStep(Until(c), done, Pieces(alts[0]), Punct('|'), more);
  }

  /** The branches before the last are finished, the last is still open. */
  lemma {:induction false} BranchesOpen(alts: seq<Matcher>, c: char, done: seq<seq<Matcher>>, rest: seq<RuleToken>)
    requires alts != [] && PrintableAll(alts) && Closing(c)
    ensures var n := |alts| - 1;
            ReadLoop(Until(c), done, [], PrintBranches(alts) + rest)
            == ReadLoop(Until(c), done + PiecesEach(alts[..n]), Pieces(alts[n]), rest)
    decreases alts, 1
  {
    var m, n := alts[0], |alts| - 1;
    if n == 0 {
      assert PrintBranches(alts) == PrintBranch(m);
      hide ReadLoop, PrintBranch, PrintBranches;
      BranchReads(m, c, done, rest);
      assert done + PiecesEach(alts[..0]) == done;
    } else {
      assert PrintableAll(alts[1..]);
      hide ReadLoop, PrintBranch, PrintBranches, PrintableAll;
      FirstBranchReads(alts, c, done, rest);
      BranchesOpen(alts[1..], c, done + [Pieces(m)], rest);
      assert alts[1..][n - 1] == alts[n];
      assert done + [Pieces(m)] + PiecesEach(alts[1..][..n - 1]) == done + PiecesEach(alts[..n]);
    }
  }

  lemma {:induction false} BranchesRead(alts: seq<Matcher>, c: char, done: seq<seq<Matcher>>, rest: seq<RuleToken>)
    requires alts != [] && PrintableAll(alts) && Closing(c)
    ensures ReadLoop(Until(c), done, [], PrintBranches(alts) + [Punct(c)] + rest)
         == Ok(Read(Finish(done + PiecesEach(alts)), rest))
    decreases alts, 2
  {
    var n, tail := |alts| - 1, [Punct(c)] + rest;
    assert PrintBranches(alts) + [Punct(c)] + rest == PrintBranches(alts) + tail;
    BranchesOpen(alts, c, done, tail);
    assert tail[1..] == rest;
    assert done + PiecesEach(alts[..n]) + [Pieces(alts[n])] == done + PiecesEach(alts);
  }

  lemma {:induction false} PrintableMember(ms: seq<Matcher>, i: nat)
    requires PrintableAll(ms) && i < |ms|
    ensures Printable(ms[i])
    decreases i
  {
    if i > 0 {
      PrintableMember(ms[1..], i - 1);
    }
  }

  lemma FinishChoice(alts: seq<Matcher>)
    requires |alts| >= 2 && PrintableAll(alts)
    ensures Finish([] + PiecesEach(alts)) == Choice(alts)
  {
    var branches := [] + PiecesEach(alts);
    forall i | 0 <= i < |alts| ensures MkRule(branches[i]) == alts[i] {
      PrintableMember(alts, i);
    }
    assert seq(|branches|, i requires 0 <= i < |branches| => MkRule(branches[i])) == alts;
  }

  lemma FinishSingle(m: Matcher)
    ensures [] + [m] == [m] && Finish([] + [[m]]) == m
  {}

  lemma GroupReads(m: Matcher, body: seq<RuleToken>, rest: seq<RuleToken>)
    requires ReadUntil(Until(')'), body + [Punct(')')] + rest) == Ok(Read(m, rest))
    ensures ReadUntil(Count(1), Parens(body) + rest) == Ok(Read(m, rest))
  {
    var toks := Parens(body) + rest;
    assert toks[0] == Punct('(') && toks[1..] == body + [Punct(')')] + rest;
    FinishSingle(m);
    assert ReadItem([], toks[0], toks[1..]) == Ok(Item(m, [], rest));
  }

  /** The count-limited read behind 'name=' takes exactly one rule. */
  lemma {:induction false} AtomReads(m: Matcher, rest: seq<RuleToken>)
    requires Printable(m)
    ensures ReadUntil(Count(1), PrintAtom(m) + rest) == Ok(Read(m, rest))
    decreases m, 3
  {
    if Postfix(m) {
      ParenReads(m, rest);
    } else {
      HeadReads(m, [], rest);
      FinishSingle(m);
    }
  }

  lemma {:induction false} SeriesReads(ps: seq<Matcher>, rest: seq<RuleToken>)
    requires |ps| != 1 && PrintableAll(ps)
    ensures ReadUntil(Until(')'), PrintItems(ps) + [Punct(')')] + rest) == Ok(Read(RuleSeries(ps), rest))
    decreases ps, 1
  {
    var tail := [Punct(')')] + rest;
    assert PrintItems(ps) + [Punct(')')] + rest == PrintItems(ps) + tail;
    ItemsRead(ps, ')', [], [], tail);
    assert [] + ps == ps && tail[1..] == rest;
  }

  lemma {:induction false} ParenReads(m: Matcher, rest: seq<RuleToken>)
    requires Printable(m) && Postfix(m)
    ensures ReadUntil(Count(1), PrintAtom(m) + rest) == Ok(Read(m, rest))
    decreases m, 2
  {
    var tail := [Punct(')')] + rest;
    assert PrintItem(m) + [Punct(')')] + rest == PrintItem(m) + tail;
    ItemReads(m, ')', [], [], tail);
    assert tail[1..] == rest && [] + [m] == [m];
    GroupReads(m, PrintItem(m), rest);
  }

  // ----- main results -----

  /** Reading a printed rule gives the rule back and stops right behind its end. */
  lemma BodyReads(m: Matcher, c: char, rest: seq<RuleToken>)
    requires Printable(m) && Closing(c)
    ensures ReadUntil(Until(c), PrintBody(m) + [Punct(c)] + rest) == Ok(Read(m, rest))
  {
    if m.Choice? {
      BranchesRead(m.alts, c, [], rest);
      FinishChoice(m.alts);
    } else {
      var tail := [Punct(c)] + rest;
      assert PrintBody(m) + [Punct(c)] + rest == PrintBranch(m) + tail;
      BranchReads(m, c, [], tail);
      assert tail[1..] == rest;
    }
  }

  lemma BodyOpen(m: Matcher, rest: seq<RuleToken>) returns (done: seq<seq<Matcher>>, cur: seq<Matcher>)
    requires Printable(m)
    ensures ReadUntil(Until(';'), PrintBody(m) + rest) == ReadLoop(Until(';'), done, cur, rest)
    ensures cur == [] <==> EndsOpen(m)
  {
    if m.Choice? {
      var n := |m.alts| - 1;
      BranchesOpen(m.alts, ';', [], rest);
      done, cur := [] + PiecesEach(m.alts[..n]), Pieces(m.alts[n]);
    } else {
      BranchReads(m, ';', [], rest);
      done, cur := [], Pieces(m);
    }
  }

  /** Nothing is written in the last branch. */
  predicate EndsOpen(m: Matcher) {
    m == RuleSeries([]) || (m.Choice? && m.alts != [] && m.alts[|m.alts| - 1] == RuleSeries([]))
  }

  /** What goes wrong behind a rule, and how: the tokens end, something stands there that
      cannot, there is nothing to repeat, or a literal is missing or has no quotes. */
  lemma BodyFails(m: Matcher, t: RuleToken, rest: seq<RuleToken>)
    requires Printable(m)
    ensures ReadUntil(Until(';'), PrintBody(m)) == Error(UnexpectedEnd)
    ensures var r := ReadUntil(Until(';'), PrintBody(m) + ([t] + rest));
            && (t == Assign || t == Punct(')') ==> r == Error(if EndsOpen(m) then NothingBefore else Unparseable))
            && (t == Punct('?') || t == Punct('*') ==> (EndsOpen(m) ==> r == Error(NothingBefore)))
            && (t == Punct('@') && rest == [] ==> r == Error(IteratorAtEnd))
            && (t == Punct('@') && rest != [] && !rest[0].LitTok? ==> r == Error(Unparseable))
            && (t.LitTok? && |t.lit| < 2 ==> r == Error(ShortLiteral))
  {
    var done, cur := BodyOpen(m, []);
    assert PrintBody(m) + [] == PrintBody(m);
    done, cur := BodyOpen(m, [t] + rest);
    LoopStep(Until(';'), done, cur, t, rest);
    hide ReadLoop, PrintBody, EndsOpen;
  }

  /** So no two rules are written alike. */
  lemma PrintInjective(m1: Matcher, m2: Matcher)
    requires Printable(m1) && Printable(m2) && PrintBody(m1) == PrintBody(m2)
    ensures m1 == m2
  {
    BodyReads(m1, ';', []);
    BodyReads(m2, ';', []);
  }

  // ----- nothing else is read -----

  lemma {:induction false} PrintableEach(ms: seq<Matcher>)
    ensures PrintableAll(ms) <==> forall i | 0 <= i < |ms| :: Printable(ms[i])
  {
    if ms == [] {
    } else {
      PrintableEach(ms[1..]);
      assert forall i | 0 < i < |ms| :: ms[i] == ms[1..][i - 1];
    }
  }

  lemma MkRulePrintable(pieces: seq<Matcher>)
    requires PrintableAll(pieces)
    ensures Printable(MkRule(pieces))
  {
    PrintableEach(pieces);
  }

  lemma PrintableSnoc(ms: seq<Matcher>, m: Matcher)
    requires PrintableAll(ms) && Printable(m)
    ensures PrintableAll(ms + [m])
  {
    PrintableEach(ms);
    PrintableEach(ms + [m]);
  }

  lemma PrintableInit(ms: seq<Matcher>)
    requires ms != [] && PrintableAll(ms)
    ensures Printable(ms[|ms| - 1]) && PrintableAll(ms[..|ms| - 1])
  {
    PrintableEach(ms);
    PrintableEach(ms[..|ms| - 1]);
  }

  ghost predicate BranchesPrintable(branches: seq<seq<Matcher>>) {
    forall i | 0 <= i < |branches| :: PrintableAll(branches[i])
  }

  lemma FinishPrintable(branches: seq<seq<Matcher>>)
    requires branches != [] && BranchesPrintable(branches)
    ensures Printable(Finish(branches))
  {
    forall i | 0 <= i < |branches| ensures Printable(MkRule(branches[i])) {
      MkRulePrintable(branches[i]);
    }
    if |branches| > 1 {
      PrintableEach(Finish(branches).alts);
    }
  }

  lemma {:induction false} ItemPrintable(cur: seq<Matcher>, t: RuleToken, rest: seq<RuleToken>)
    requires t != Punct('|') && PrintableAll(cur)
    ensures var r := ReadItem(cur, t, rest); r.Ok? ==> Printable(r.value.rule) && PrintableAll(r.value.before)
    decreases |rest|, 1
  {
    if t.CollectorTok? || t.SymbolTok? {
      LoopPrintable(Count(1), [], [], rest);
    } else if t == Punct('(') {
      LoopPrintable(Until(')'), [], [], rest);
    } else if cur != [] {
      PrintableInit(cur);
    }
  }

  lemma {:induction false} LoopPrintable(end: End, done: seq<seq<Matcher>>, cur: seq<Matcher>, toks: seq<RuleToken>)
    requires BranchesPrintable(done) && PrintableAll(cur)
    ensures var r := ReadLoop(end, done, cur, toks); r.Ok? ==> Printable(r.value.rule)
    decreases |toks|, 0
  {
    if toks == [] {
    } else {
      FinishPrintable(done + [cur]);
      if end.Until? && toks[0] == Punct(end.c) {
      } else if toks[0] == Punct('|') {
        LoopPrintable(Tick(end), done + [cur], [], toks[1..]);
      } else {
        ItemPrintable(cur, toks[0], toks[1..]);
        var item := ReadItem(cur, toks[0], toks[1..]);
        if item.Ok? {
          var longer := item.value.before + [item.value.rule];
          PrintableSnoc(item.value.before, item.value.rule);
          FinishPrintable(done + [longer]);
          LoopPrintable(Tick(end), done, longer, item.value.rest);
        }
      }
    }
  }

  ghost predicate CanBeRead(m: Matcher) {
    exists toks :: ReadUntil(Until(';'), toks).Ok? && ReadUntil(Until(';'), toks).value.rule == m
  }

  /** The matchers that some rule text defines are exactly the printable ones. */
  lemma ReadableExactly(m: Matcher)
    ensures CanBeRead(m) <==> Printable(m)
  {
    if CanBeRead(m) {
      var toks :| ReadUntil(Until(';'), toks).Ok? && ReadUntil(Until(';'), toks).value.rule == m;
      LoopPrintable(Until(';'), [], [], toks);
    }
    if Printable(m) {
      var toks := PrintBody(m) + [Punct(';')] + [];
      BodyReads(m, ';', []);
      assert ReadUntil(Until(';'), toks) == Ok(Read(m, []));
    }
  }

  function DefineAll(defs: RuleDefs, rules: seq<(string, Matcher)>): RuleDefs
    decreases |rules|
  {
    if rules == [] then defs else DefineAll(Define(defs, rules[0].0, rules[0].1), rules[1..])
  }

  ghost predicate AllPrintable(rules: seq<(string, Matcher)>) {
    forall i | 0 <= i < |rules| :: Printable(rules[i].1)
  }

  lemma {:induction false} RulesRead(defs: RuleDefs, rules: seq<(string, Matcher)>, rest: seq<RuleToken>)
    requires AllPrintable(rules)
    ensures ParseFrom(defs, PrintRules(rules) + rest) == ParseFrom(DefineAll(defs, rules), rest)
    decreases |rules|
  {
    if rules == [] {
      assert PrintRules(rules) + rest == rest;
    } else {
      var toks, more := PrintRules(rules) + rest, PrintRules(rules[1..]) + rest;
      assert Printable(rules[0].1);
      assert toks[2..] == PrintBody(rules[0].1) + [Punct(';')] + more;
      BodyReads(rules[0].1, ';', more);
      RulesRead(Define(defs, rules[0].0, rules[0].1), rules[1..], rest);
    }
  }

  /** What goes wrong behind some rules: something other than a rule's name, the end of
      the tokens behind a name, or something other than '::='. */
  lemma RuleSetFails(rules: seq<(string, Matcher)>, t: RuleToken, rest: seq<RuleToken>)
    requires AllPrintable(rules)
    ensures var r := ParseRules(PrintRules(rules) + ([t] + rest));
            && (!t.ReferenceTok? && !t.JunkTok? ==> r == Error(Unparseable))
            && ((t.ReferenceTok? || t.JunkTok?) && rest == [] ==> r == Error(IteratorAtEnd))
            && ((t.ReferenceTok? || t.JunkTok?) && rest != [] && rest[0] != Assign ==> r == Error(Unparseable))
  {
    RulesRead(RuleDefs(map[], []), rules, [t] + rest);
  }

  /** Rule `i` is the last one for its name. */
  ghost predicate LastRule(rules: seq<(string, Matcher)>, i: int, name: string) {
    0 <= i < |rules| && rules[i].0 == name && forall j | i < j < |rules| :: rules[j].0 != name
  }

  /** The terminals among the rules, by name and in order. */
  function TerminalsOf(rules: seq<(string, Matcher)>): seq<(string, Terminal)> {
    if rules == [] then []
    else (if rules[0].1.Term? then [(rules[0].0, rules[0].1.term)] else []) + TerminalsOf(rules[1..])
  }

  ghost predicate NoRule(rules: seq<(string, Matcher)>, name: string) {
    forall j | 0 <= j < |rules| :: rules[j].0 != name
  }

  /** `m` is what the last rule for the name defines: a bare terminal as a token type. */
  ghost predicate Stands(rules: seq<(string, Matcher)>, name: string, m: Matcher) {
    exists i ::
      LastRule(rules, i, name) && m == if rules[i].1.Term? then TermType(name, rules[i].1.term) else rules[i].1
  }

  lemma StandsFirst(rules: seq<(string, Matcher)>, name: string, m: Matcher)
    requires rules != []
    ensures var (first, rest) := (rules[0], rules[1..]);
            Stands(rules, name, m)
            <==> || Stands(rest, name, m)
                 || (first.0 == name && NoRule(rest, name)
                     && m == if first.1.Term? then TermType(name, first.1.term) else first.1)
  {
    var rest := rules[1..];
    assert forall j | 0 < j < |rules| :: rules[j] == rest[j - 1];
    forall i ensures LastRule(rest, i, name) <==> i >= 0 && LastRule(rules, i + 1, name) {
      if LastRule(rest, i, name) {
        forall j | i + 1 < j < |rules| ensures rules[j].0 != name {
          assert rules[j] == rest[j - 1];
        }
      }
    }
    assert LastRule(rules, 0, name) <==> rules[0].0 == name && NoRule(rest, name);
    if Stands(rules, name, m) {
      var i :| LastRule(rules, i, name)
            && m == if rules[i].1.Term? then TermType(name, rules[i].1.term) else rules[i].1;
      assert i > 0 ==> LastRule(rest, i - 1, name);
    }
  }

  lemma NoRuleStands(rules: seq<(string, Matcher)>, name: string, m: Matcher)
    ensures rules == [] ==> !Stands(rules, name, m) && NoRule(rules, name)
    ensures rules != [] ==> (NoRule(rules, name) <==> rules[0].0 != name && NoRule(rules[1..], name))
  {
    assert forall j | 0 < j < |rules| :: rules[j] == rules[1..][j - 1];
  }

  lemma {:induction false} DefinesLast(defs: RuleDefs, rules: seq<(string, Matcher)>, name: string, m: Matcher)
    ensures var r := DefineAll(defs, rules).rules;
            name in r && r[name] == m
            <==> Stands(rules, name, m) || (NoRule(rules, name) && name in defs.rules && defs.rules[name] == m)
    ensures DefineAll(defs, rules).terminals == defs.terminals + TerminalsOf(rules)
    decreases |rules|
  {
    hide Stands, NoRule;
    NoRuleStands(rules, name, m);
    if rules == [] {
      assert defs.terminals + [] == defs.terminals;
    } else {
      var next := Define(defs, rules[0].0, rules[0].1);
      StandsFirst(rules, name, m);
      DefinesLast(next, rules[1..], name, m);
      var one := if rules[0].1.Term? then [(rules[0].0, rules[0].1.term)] else [];
      assert next.terminals == defs.terminals + one;
      assert defs.terminals + one + TerminalsOf(rules[1..]) == defs.terminals + (one + TerminalsOf(rules[1..]));
    }
  }

  lemma NothingLeft(defs: RuleDefs)
    ensures ParseFrom(defs, []) == Ok(defs)
  {}

  /** A printed rule set is read back whole: each name has its last rule, a bare
      terminal as a token type, and the terminals are listed in order. */
  lemma RuleSetReads(rules: seq<(string, Matcher)>)
    requires AllPrintable(rules)
    ensures var r := ParseRules(PrintRules(rules));
            && r.Ok? && r.value.terminals == TerminalsOf(rules)
            && forall name, m :: name in r.value.rules && r.value.rules[name] == m <==> Stands(rules, name, m)
  {
    hide Stands, PrintRules, ParseFrom, DefineAll;
    var none := RuleDefs(map[], []);
    RulesRead(none, rules, []);
    assert PrintRules(rules) + [] == PrintRules(rules);
    NothingLeft(DefineAll(none, rules));
    DefinesLast(none, rules, "", Bare(""));
    assert [] + TerminalsOf(rules) == TerminalsOf(rules);
    forall name, m
      ensures var r := DefineAll(none, rules).rules; name in r && r[name] == m <==> Stands(rules, name, m)
    {
      DefinesLast(none, rules, name, m);
    }
  }
}
