/** Reading the rule notation (ParsingRuleSet.read_rule_tokens_until and
    parse_rules): a second recursive parser, which builds the matchers. */
module RuleReader {
  import opened Common
  import opened Matchers

  datatype RuleToken =
    | Assign
    | CollectorTok(name: string)
    | SymbolTok(name: string)
    | RegexTok(pat: string)
    | LitTok(lit: string)
    | ReferenceTok(name: string)
    | JunkTok(name: string)
    | Punct(c: char)

  datatype ReadError =
    | UnexpectedEnd      // ValueError: the tokens end inside a rule
    | Unparseable        // ValueError: a token that cannot stand here
    | NothingBefore      // IndexError: nothing to repeat, or no previous rule to report
    | IteratorAtEnd      // StopIteration from an explicit next()
    | ShortLiteral       // IndexError: a literal without its quotes

  type Result<T> = Common.Result<T, ReadError>

  datatype Read = Read(rule: Matcher, rest: seq<RuleToken>)

  /** How a read ends: at a closing token, or after so many more tokens. */
  datatype End = Until(c: char) | Count(left: int)

  function Tick(end: End): End {
    if end.Count? then Count(end.left - 1) else end
  }

  predicate WordChar(c: char) {
    'a' <= c <= 'z' || 'A' <= c <= 'Z' || '0' <= c <= '9' || c == '_'
  }

  /** mkrule */
  function MkRule(pieces: seq<Matcher>): Matcher {
    if |pieces| == 1 then pieces[0] else RuleSeries(pieces)
  }

  function Finish(branches: seq<seq<Matcher>>): Matcher
    requires branches != []
  {
    if |branches| == 1 then MkRule(branches[0])
    else Choice(seq(|branches|, i requires 0 <= i < |branches| => MkRule(branches[i])))
  }

  function Literally(lit: string): Matcher
    requires |lit| >= 2
  {
    if WordChar(lit[1]) then Term(Word(lit)) else Term(Text(lit))
  }

  /** What a token and those it takes with it contribute: a matcher, the rules it
      stands after (postfix operators take the last one back), the tokens left. */
  datatype Item = Item(rule: Matcher, before: seq<Matcher>, rest: seq<RuleToken>)

  function ReadItem(cur: seq<Matcher>, t: RuleToken, rest: seq<RuleToken>): (r: Result<Item>)
    requires t != Punct('|')
    ensures r.Ok? ==> |r.value.rest| <= |rest|
    decreases |rest|, 1
  {
    match t
    case ReferenceTok(n) => Ok(Item(RuleReference(n), cur, rest))
    case LitTok(lit) => if |lit| < 2 then Error(ShortLiteral) else Ok(Item(Literally(lit), cur, rest))
    case RegexTok(pat) => Ok(Item(Term(Regex(pat)), cur, rest))
    case CollectorTok(n) =>
      var inner :- ReadLoop(Count(1), [], [], rest);
      Ok(Item(Capture(n, true, inner.rule), cur, inner.rest))
    case SymbolTok(n) =>
      var inner :- ReadLoop(Count(1), [], [], rest);
      Ok(Item(Capture(n, false, inner.rule), cur, inner.rest))
    case JunkTok(n) => Ok(Item(Bare(n), cur, rest))
    case Assign => Error(if cur == [] then NothingBefore else Unparseable)
    case Punct(c) =>
      if c == '(' then
        var inner :- ReadLoop(Until(')'), [], [], rest);
        Ok(Item(inner.rule, cur, inner.rest))
      else if c == '?' || c == '*' then
        if cur == [] then Error(NothingBefore)
        else
          var last := cur[|cur| - 1];
          Ok(Item(if c == '?' then OneOrNone(last) else Repeat(last), cur[..|cur| - 1], rest))
      else if c == '@' then
        if rest == [] then Error(IteratorAtEnd)
        else if rest[0].LitTok? then Ok(Item(Term(Case(rest[0].lit)), cur, rest[1..]))
        else Error(Unparseable)
      else Error(if cur == [] then NothingBefore else Unparseable)
  }

  /** read_rule_tokens_until: `done` holds the finished branches, `cur` the rules of
      the branch being read. A '|' is passed over without looking at the count. */
  function ReadLoop(end: End, done: seq<seq<Matcher>>, cur: seq<Matcher>, toks: seq<RuleToken>): (r: Result<Read>)
    ensures r.Ok? ==> |r.value.rest| < |toks|
    decreases |toks|, 0
  {
    if toks == [] then Error(UnexpectedEnd)
    else if end.Until? && toks[0] == Punct(end.c) then Ok(Read(Finish(done + [cur]), toks[1..]))
    else if toks[0] == Punct('|') then ReadLoop(Tick(end), done + [cur], [], toks[1..])
    else
      var item :- ReadItem(cur, toks[0], toks[1..]);
      var longer := item.before + [item.rule];
      if end == Count(1) then Ok(Read(Finish(done + [longer]), item.rest))
      else ReadLoop(Tick(end), done, longer, item.rest)
  }

  function ReadUntil(end: End, toks: seq<RuleToken>): Result<Read> {
    ReadLoop(end, [], [], toks)
  }

  /** A rule set as parse_rules returns it. */
  datatype RuleDefs = RuleDefs(rules: map<string, Matcher>, terminals: seq<(string, Terminal)>)

  /** A production that is a bare terminal becomes a token type. */
  function Define(defs: RuleDefs, name: string, m: Matcher): RuleDefs {
    if m.Term? then RuleDefs(defs.rules[name := TermType(name, m.term)], defs.terminals + [(name, m.term)])
    else defs.(rules := defs.rules[name := m])
  }

  function ParseFrom(defs: RuleDefs, toks: seq<RuleToken>): Result<RuleDefs>
    decreases |toks|
  {
    if toks == [] then Ok(defs)
    else if !toks[0].ReferenceTok? && !toks[0].JunkTok? then Error(Unparseable)
    else if |toks| == 1 then Error(IteratorAtEnd)
    else if toks[1] != Assign then Error(Unparseable)
    else
      var body :- ReadUntil(Until(';'), toks[2..]);
      ParseFrom(Define(defs, toks[0].name, body.rule), body.rest)
  }

  function ParseRules(toks: seq<RuleToken>): Result<RuleDefs> {
    ParseFrom(RuleDefs(map[], []), toks)
  }

  // ----- the loops -----

  class TokenIterator {
    const toks: seq<RuleToken>
    var pos: nat

    constructor (toks: seq<RuleToken>)
      ensures this.toks == toks && Valid() && Rest() == toks
    {
      this.toks := toks;
      pos := 0;
    }

    ghost predicate Valid()
      reads this
    {
      pos <= |toks|
    }

    ghost function Rest(): seq<RuleToken>
      requires Valid()
      reads this
    {
      toks[pos..]
    }

    method Next() returns (t: RuleToken)
      requires Valid() && Rest() != []
      modifies this
      ensures Valid() && pos == old(pos) + 1 && [t] + Rest() == old(Rest())
    {
      t := toks[pos];
      pos := pos + 1;
    }

    method AtEnd() returns (b: bool)
      requires Valid()
      ensures b <==> Rest() == []
    {
      b := pos == |toks|;
    }
  }

  /** What one read leaves behind: the rule read and the iterator after it. */
  ghost predicate Leaves(it: TokenIterator, r: Result<Matcher>, spec: Result<Read>)
    reads it
  {
    && it.Valid()
    && if spec.Error? then r == Error(spec.error)
       else r == Ok(spec.value.rule) && it.Rest() == spec.value.rest
  }

  /** One pass of the loop. */
  lemma LoopStep(end: End, done: seq<seq<Matcher>>, cur: seq<Matcher>, t: RuleToken, rest: seq<RuleToken>)
    ensures ReadLoop(end, done, cur, []) == Error(UnexpectedEnd)
    ensures ReadLoop(end, done, cur, [t] + rest)
         == if end.Until? && t == Punct(end.c) then Ok(Read(Finish(done + [cur]), rest))
            else if t == Punct('|') then ReadLoop(Tick(end), done + [cur], [], rest)
            else
              var item := ReadItem(cur, t, rest);
              if item.Error? then Error(item.error)
              else
                var longer := item.value.before + [item.value.rule];
                if end == Count(1) then Ok(Read(Finish(done + [longer]), item.value.rest))
                else ReadLoop(Tick(end), done, longer, item.value.rest)
  {
    assert ([t] + rest)[0] == t && ([t] + rest)[1..] == rest;
  }

  method ReadRuleTokensUntil(end: End, it: TokenIterator) returns (r: Result<Matcher>)
    requires it.Valid()
    modifies it
    ensures Leaves(it, r, old(ReadUntil(end, it.Rest())))
    decreases |it.Rest()|, 0
  {
    hide ReadLoop, ReadItem, Finish;
    var countSoFar := 0;
    var myRules: seq<Matcher> := [];
    var myBranches: seq<seq<Matcher>> := [];
    ghost var spec := ReadUntil(end, it.Rest());
    ghost var size := |it.Rest()|;
    var atEnd := it.AtEnd();
    while !atEnd
      invariant it.Valid() && (atEnd <==> it.Rest() == []) && |it.Rest()| <= size
      invariant spec == ReadLoop(if end.Count? then Count(end.left - countSoFar) else end,
                                 myBranches, myRules, it.Rest())
      decreases |it.Rest()|
    {
      var t := it.Next();
      LoopStep(if end.Count? then Count(end.left - countSoFar) else end, myBranches, myRules, t, it.Rest());
      countSoFar := countSoFar + 1;
      if end.Until? && t == Punct(end.c) {
        return Ok(Finish(myBranches + [myRules]));
      }
      if t == Punct('|') {
        myBranches, myRules := myBranches + [myRules], [];
        atEnd := it.AtEnd();
        continue;
      }
      var m: Result<Matcher>;
      m, myRules := ReadOne(t, myRules, it);
      if m.Error? {
        return m;
      }
      myRules := myRules + [m.value];
      if end == Count(countSoFar) {
        return Ok(Finish(myBranches + [myRules]));
      }
      atEnd := it.AtEnd();
    }
    LoopStep(if end.Count? then Count(end.left - countSoFar) else end, myBranches, myRules, Assign, []);
    return Error(UnexpectedEnd);
  }

  method ReadOne(t: RuleToken, myRules: seq<Matcher>, it: TokenIterator)
    returns (r: Result<Matcher>, left: seq<Matcher>)
    requires it.Valid() && t != Punct('|')
    modifies it
    ensures it.Valid()
    ensures var item := old(ReadItem(myRules, t, it.Rest()));
            if item.Error? then r == Error(item.error)
            else r == Ok(item.value.rule) && left == item.value.before && it.Rest() == item.value.rest
    decreases |it.Rest()|, 1
  {
    left := myRules;
    match t
    case ReferenceTok(n) => r := Ok(RuleReference(n));
    case LitTok(lit) => r := if |lit| < 2 then Error(ShortLiteral) else Ok(Literally(lit));
    case RegexTok(pat) => r := Ok(Term(Regex(pat)));
    case CollectorTok(n) =>
      r := ReadRuleTokensUntil(Count(1), it);
      if r.Ok? { r := Ok(Capture(n, true, r.value)); }
    case SymbolTok(n) =>
      r := ReadRuleTokensUntil(Count(1), it);
      if r.Ok? { r := Ok(Capture(n, false, r.value)); }
    case JunkTok(n) => r := Ok(Bare(n));
    case Assign => r := Error(if myRules == [] then NothingBefore else Unparseable);
    case Punct(c) =>
      if c == '(' {
        r := ReadRuleTokensUntil(Until(')'), it);
      } else if c == '?' || c == '*' {
        if myRules == [] {
          r := Error(NothingBefore);
        } else {
          var last := myRules[|myRules| - 1];
          left := myRules[..|myRules| - 1];
          r := Ok(if c == '?' then OneOrNone(last) else Repeat(last));
        }
      } else if c == '@' {
        var atEnd := it.AtEnd();
        if atEnd {
          r := Error(IteratorAtEnd);
        } else {
          var x := it.Next();
          r := if x.LitTok? then Ok(Term(Case(x.lit))) else Error(Unparseable);
        }
      } else {
        r := Error(if myRules == [] then NothingBefore else Unparseable);
      }
  }

  /** parse_rules: the rules and terminals a token list defines. */
  method ParseRuleTokens(toks: seq<RuleToken>) returns (r: Result<RuleDefs>)
    ensures r == ParseRules(toks)
  {
    var defs := RuleDefs(map[], []);
    var it := new TokenIterator(toks);
    var atEnd := it.AtEnd();
    while !atEnd
      invariant it.Valid() && (atEnd <==> it.Rest() == [])
      invariant ParseRules(toks) == ParseFrom(defs, it.Rest())
      decreases |it.Rest()|
    {
      ghost var before := it.Rest();
      var t := it.Next();
      if !t.ReferenceTok? && !t.JunkTok? {
        return Error(Unparseable);
      }
      atEnd := it.AtEnd();
      if atEnd {
        return Error(IteratorAtEnd);
      }
      var assign := it.Next();
      if assign != Assign {
        return Error(Unparseable);
      }
      assert it.Rest() == before[2..];
      var production := ReadRuleTokensUntil(Until(';'), it);
      if production.Error? {
        return Error(production.error);
      }
      defs := Define(defs, t.name, production.value);
      atEnd := it.AtEnd();
    }
    return Ok(defs);
  }
}
