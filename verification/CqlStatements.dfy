/** The token passes in front of the CQL parser (cqlshlib/cqlhandling.py and util.py):
    newlines that end a statement, splitting into statements, batches. */
module CqlStatements {
  import opened Common
  import opened Matchers

  const ENDLINE := "endline"
  const ENDTOKEN := "endtoken"
  const IDENTIFIER := "identifier"

  // ----- massaging -----

  /** cql_massage_tokens from the middle: `atStart` when the statement is empty so far,
      `termOnNl` when its command ends with the line. */
  function MassageFrom(commands: set<string>, atStart: bool, termOnNl: bool, toks: seq<Token>): seq<Token>
    decreases |toks|
  {
    if toks == [] then []
    else
      var t, rest := toks[0], toks[1..];
      if t.kind == ENDLINE && !termOnNl then MassageFrom(commands, atStart, termOnNl, rest)
      else if t.kind == ENDLINE || t.kind == ENDTOKEN then
        [t.(kind := ENDTOKEN)] + MassageFrom(commands, true, false, rest)
      else [t] + MassageFrom(commands, false, if atStart then Lower(t.text) in commands else termOnNl, rest)
  }

  function Massage(commands: set<string>, toks: seq<Token>): seq<Token> {
    MassageFrom(commands, true, false, toks)
  }

  /** What one pass of the loop does to what is still to come. */
  lemma MassageNext(commands: set<string>, atStart: bool, termOnNl: bool, toks: seq<Token>, i: nat, so: seq<Token>)
    requires i < |toks|
    ensures var t := toks[i];
            var starts := if atStart then Lower(t.text) in commands else termOnNl;
            so + MassageFrom(commands, atStart, termOnNl, toks[i..])
            == if t.kind == ENDLINE && !termOnNl then so + MassageFrom(commands, atStart, termOnNl, toks[i + 1..])
               else if t.kind == ENDLINE || t.kind == ENDTOKEN then
                 so + [t.(kind := ENDTOKEN)] + MassageFrom(commands, true, false, toks[i + 1..])
               else so + [t] + MassageFrom(commands, false, starts, toks[i + 1..])
  {
    assert toks[i..][0] == toks[i] && toks[i..][1..] == toks[i + 1..];
  }

  method MassageTokens(commands: set<string>, toks: seq<Token>) returns (output: seq<Token>)
    ensures output == Massage(commands, toks)
  {
    hide MassageFrom;
    var curStmt: seq<Token> := [];
    output := [];
    var termOnNl := false;
    assert toks[0..] == toks;
    var i := 0;
    while i < |toks|
      invariant i <= |toks|
      invariant Massage(commands, toks) == output + curStmt + MassageFrom(commands, curStmt == [], termOnNl, toks[i..])
    {
      MassageNext(commands, curStmt == [], termOnNl, toks, i, output + curStmt);
      var t := toks[i];
      i := i + 1;
      if t.kind == ENDLINE {
        if termOnNl {
          t := t.(kind := ENDTOKEN);
        } else {
          continue;
        }
      }
      assert output + curStmt + [t] == output + (curStmt + [t]);
      curStmt := curStmt + [t];
      if t.kind == ENDTOKEN {
        termOnNl := false;
        output := output + curStmt;
        curStmt := [];
        assert output + curStmt == output;
      } else if |curStmt| == 1 {
        termOnNl := Lower(t.text) in commands;
      }
    }
    MassageOver(commands, curStmt == [], termOnNl, toks[i..]);
    output := output + curStmt;
    assert output + [] == output;
  }

  lemma MassageOver(commands: set<string>, atStart: bool, termOnNl: bool, toks: seq<Token>)
    requires toks == []
    ensures MassageFrom(commands, atStart, termOnNl, toks) == []
  {}

  lemma {:induction false} NoEndlineLeft(commands: set<string>, atStart: bool, termOnNl: bool, toks: seq<Token>)
    ensures forall t | t in MassageFrom(commands, atStart, termOnNl, toks) :: t.kind != ENDLINE
    decreases |toks|
  {
    if toks == [] {
    } else {
      var t := toks[0];
      var startsStmt := if atStart then Lower(t.text) in commands else termOnNl;
      NoEndlineLeft(commands, atStart, termOnNl, toks[1..]);
      NoEndlineLeft(commands, true, false, toks[1..]);
      NoEndlineLeft(commands, false, startsStmt, toks[1..]);
    }
  }

  lemma {:induction false} MassageKeepsOthers(commands: set<string>, atStart: bool, termOnNl: bool, toks: seq<Token>)
    requires forall t | t in toks :: t.kind != ENDLINE
    ensures MassageFrom(commands, atStart, termOnNl, toks) == toks
    decreases |toks|
  {
    if toks == [] {
    } else {
      var t := toks[0];
      assert t in toks && toks == [t] + toks[1..];
      MassageKeepsOthers(commands, true, false, toks[1..]);
      MassageKeepsOthers(commands, false, if atStart then Lower(t.text) in commands else termOnNl, toks[1..]);
    }
  }

  /** Massaging leaves no line ends, and nothing to do for a second pass. */
  lemma MassageIdempotent(commands: set<string>, toks: seq<Token>)
    ensures forall t | t in Massage(commands, toks) :: t.kind != ENDLINE
    ensures Massage(commands, Massage(commands, toks)) == Massage(commands, toks)
  {
    NoEndlineLeft(commands, true, false, toks);
    MassageKeepsOthers(commands, true, false, Massage(commands, toks));
  }

  /** The tokens that are not line ends, by their text. */
  function Words(toks: seq<Token>): seq<Token> {
    if toks == [] then [] else (if toks[0].text != "\n" then [toks[0]] else []) + Words(toks[1..])
  }

  /** As the lexer makes them: an endline token is a newline, and nothing else is. */
  ghost predicate Lexed(toks: seq<Token>) {
    forall t | t in toks :: t.kind == "endline" <==> t.text == "\n"
  }

  /** Nothing but line ends is dropped, and nothing is moved. */
  lemma {:induction false} MassageKeepsWords(commands: set<string>, atStart: bool, termOnNl: bool, toks: seq<Token>)
    requires Lexed(toks)
    ensures Words(MassageFrom(commands, atStart, termOnNl, toks)) == Words(toks)
    decreases |toks|
  {
    if toks == [] {
    } else {
      var t, rest := toks[0], toks[1..];
      assert t in toks;
      var startsStmt := if atStart then Lower(t.text) in commands else termOnNl;
      MassageKeepsWords(commands, atStart, termOnNl, rest);
      MassageKeepsWords(commands, true, false, rest);
      MassageKeepsWords(commands, false, startsStmt, rest);
      var ended, going := MassageFrom(commands, true, false, rest), MassageFrom(commands, false, startsStmt, rest);
      assert ([t.(kind := ENDTOKEN)] + ended)[1..] == ended && ([t] + going)[1..] == going;
    }
  }

  // which line ends become end tokens

  /** The loop's two variables after some tokens. */
  function After(commands: set<string>, atStart: bool, termOnNl: bool, toks: seq<Token>): (bool, bool)
    decreases |toks|
  {
    if toks == [] then (atStart, termOnNl)
    else
      var t, rest := toks[0], toks[1..];
      if t.kind == ENDLINE && !termOnNl then After(commands, atStart, termOnNl, rest)
      else if t.kind == ENDLINE || t.kind == ENDTOKEN then After(commands, true, false, rest)
      else After(commands, false, if atStart then Lower(t.text) in commands else termOnNl, rest)
  }

  lemma {:induction false} MassageSnoc(commands: set<string>, atStart: bool, termOnNl: bool, pre: seq<Token>, t: Token)
    ensures var (a, n) := After(commands, atStart, termOnNl, pre);
            && MassageFrom(commands, atStart, termOnNl, pre + [t])
               == MassageFrom(commands, atStart, termOnNl, pre) + MassageFrom(commands, a, n, [t])
            && After(commands, atStart, termOnNl, pre + [t]) == After(commands, a, n, [t])
    decreases |pre|
  {
    if pre == [] {
      assert pre + [t] == [t];
      assert [] + MassageFrom(commands, atStart, termOnNl, [t]) == MassageFrom(commands, atStart, termOnNl, [t]);
    } else {
      var u, rest := pre[0], pre[1..];
      assert (pre + [t])[0] == u && (pre + [t])[1..] == rest + [t];
      if u.kind == ENDLINE && !termOnNl {
        MassageSnoc(commands, atStart, termOnNl, rest, t);
      } else {
        var ends := u.kind == ENDLINE || u.kind == ENDTOKEN;
        var starts := !ends && if atStart then Lower(u.text) in commands else termOnNl;
        MassageSnoc(commands, ends, starts, rest, t);
        var head := if ends then [u.(kind := ENDTOKEN)] else [u];
        var (a, n) := After(commands, ends, starts, rest);
        assert head + (MassageFrom(commands, ends, starts, rest) + MassageFrom(commands, a, n, [t]))
            == head + MassageFrom(commands, ends, starts, rest) + MassageFrom(commands, a, n, [t]);
      }
    }
  }

  /** The statement that has not ended yet. */
  function Current(s: seq<Token>): seq<Token> {
    if s == [] || s[|s| - 1].kind == ENDTOKEN then [] else Current(s[..|s| - 1]) + [s[|s| - 1]]
  }

  lemma {:induction false} AfterIsCurrent(commands: set<string>, toks: seq<Token>)
    ensures var cur := Current(Massage(commands, toks));
            After(commands, true, false, toks) == (cur == [], cur != [] && Lower(cur[0].text) in commands)
    decreases |toks|
  {
    if toks == [] {
    } else {
      var pre, t := toks[..|toks| - 1], toks[|toks| - 1];
      assert toks == pre + [t];
      AfterIsCurrent(commands, pre);
      MassageSnoc(commands, true, false, pre, t);
      var (a, n) := After(commands, true, false, pre);
      OneToken(commands, a, n, t);
      CurrentSnoc(Massage(commands, pre), t);
    }
  }

  lemma OneToken(commands: set<string>, a: bool, n: bool, t: Token)
    ensures MassageFrom(commands, a, n, [t])
         == if t.kind == ENDLINE && !n then []
            else if t.kind == ENDLINE || t.kind == ENDTOKEN then [t.(kind := ENDTOKEN)] else [t]
    ensures After(commands, a, n, [t])
         == if t.kind == ENDLINE && !n then (a, n)
            else if t.kind == ENDLINE || t.kind == ENDTOKEN then (true, false)
            else (false, if a then Lower(t.text) in commands else n)
  {
    assert [t][1..] == [];
  }

  lemma CurrentSnoc(s: seq<Token>, t: Token)
    ensures s + [] == s
    ensures Current(s + [t.(kind := ENDTOKEN)]) == []
    ensures t.kind != ENDTOKEN ==> Current(s + [t]) == Current(s) + [t]
  {
    assert (s + [t])[..|s|] == s;
  }

  /** Token by token: a line end becomes an end token exactly when the statement it stands
      in has begun with a command that ends with the line, and is dropped otherwise; every
      other token stays as it is. */
  lemma LineEndExactly(commands: set<string>, pre: seq<Token>, t: Token)
    ensures var cur := Current(Massage(commands, pre));
            Massage(commands, pre + [t])
            == Massage(commands, pre)
               + if t.kind != "endline" then [t]
                 else if cur != [] && Lower(cur[0].text) in commands then [t.(kind := "endtoken")] else []
    ensures Massage(commands, []) == []
  {
    AfterIsCurrent(commands, pre);
    MassageSnoc(commands, true, false, pre, t);
    var (a, n) := After(commands, true, false, pre);
    OneToken(commands, a, n, t);
  }

  // ----- splitting -----

  ghost predicate Ends(s: seq<Token>) {
    s != [] && s[|s| - 1].kind == "endtoken" && forall i | 0 <= i < |s| - 1 :: s[i].kind != "endtoken"
  }

  ghost predicate NoEnd(s: seq<Token>) {
    forall i | 0 <= i < |s| :: s[i].kind != "endtoken"
  }

  /** The pieces are the items cut behind each end token. */
  ghost predicate IsSplit(items: seq<Token>, pieces: seq<seq<Token>>) {
    && pieces != [] && Flatten(pieces) == items
    && (forall k | 0 <= k < |pieces| - 1 :: Ends(pieces[k]))
    && NoEnd(pieces[|pieces| - 1])
  }

  /** split_list on end tokens. */
  method SplitList(items: seq<Token>) returns (results: seq<seq<Token>>)
    ensures IsSplit(items, results)
  {
    var thisResult: seq<Token> := [];
    results := [];
    for i := 0 to |items|
      invariant Flatten(results) + thisResult == items[..i]
      invariant (forall k | 0 <= k < |results| :: Ends(results[k])) && NoEnd(thisResult)
    {
      assert items[..i + 1] == items[..i] + [items[i]];
      ghost var before := thisResult;
      thisResult := thisResult + [items[i]];
      assert Flatten(results) + thisResult == Flatten(results) + before + [items[i]];
      if items[i].kind == ENDTOKEN {
        assert Ends(thisResult);
        assert (results + [thisResult])[..|results|] == results;
        results := results + [thisResult];
        thisResult := [];
      }
    }
    assert (results + [thisResult])[..|results|] == results && items[..|items|] == items;
    results := results + [thisResult];
  }

  // ----- batches -----

  /** The statement begins with two identifiers that read `first` and `second`. */
  ghost predicate BeginsWith(stmt: seq<Token>, first: string, second: string) {
    && |stmt| > 1 && stmt[0].kind == "identifier" && stmt[1].kind == "identifier"
    && SameText(stmt[0].text, first) && SameText(stmt[1].text, second)
  }

  ghost predicate Begins(stmt: seq<Token>) {
    BeginsWith(stmt, "begin", "batch")
  }

  ghost predicate Applies(stmt: seq<Token>) {
    BeginsWith(stmt, "apply", "batch")
  }

  lemma LowerText(text: string, word: string)
    requires word == "begin" || word == "apply" || word == "batch"
    ensures Lower(text) == word <==> SameText(text, word)
  {
    LowerMeans(text);
    assert Lower(word) == word;
  }

  lemma MarksMean(stmt: seq<Token>)
    ensures var marks := |stmt| > 1 && stmt[0].kind == IDENTIFIER && stmt[1].kind == IDENTIFIER
                         && Lower(stmt[1].text) == "batch";
            && (Begins(stmt) <==> marks && Lower(stmt[0].text) == "begin")
            && (Applies(stmt) <==> marks && Lower(stmt[0].text) == "apply")
            && !(Begins(stmt) && Applies(stmt))
  {
    hide Lower, SameText;
    if |stmt| > 1 {
      LowerText(stmt[0].text, "begin");
      LowerText(stmt[0].text, "apply");
      LowerText(stmt[1].text, "batch");
    }
  }

  /** A batch that has begun and not been applied yet. */
  ghost predicate OpenBatch(g: seq<seq<Token>>) {
    g != [] && Begins(g[0]) && forall k | 0 < k < |g| :: !Applies(g[k])
  }

  /** One plain statement, or a batch from its begin to its first apply. */
  ghost predicate ClosedGroup(g: seq<seq<Token>>) {
    || (|g| == 1 && !Begins(g[0]))
    || (|g| > 1 && OpenBatch(g[..|g| - 1]) && Applies(g[|g| - 1]))
  }

  /** The statements in groups, of which only the last may be an open batch. */
  ghost predicate Grouped(stmts: seq<seq<Token>>, groups: seq<seq<seq<Token>>>, inBatch: bool) {
    && Flatten(groups) == stmts
    && (forall k | 0 <= k < |groups| - 1 :: ClosedGroup(groups[k]))
    && (groups != [] ==> var last := groups[|groups| - 1]; if inBatch then OpenBatch(last) else ClosedGroup(last))
    && (inBatch ==> groups != [])
  }

  ghost predicate Merged(groups: seq<seq<seq<Token>>>, output: seq<seq<Token>>) {
    |output| == |groups| && forall k | 0 <= k < |groups| :: output[k] == Flatten(groups[k])
  }

  /** The output is the statements with each batch joined into one piece, and the flag
      says that the last piece is a batch still open. */
  ghost predicate BatchesJoined(stmts: seq<seq<Token>>, output: seq<seq<Token>>, inBatch: bool) {
    exists groups :: Grouped(stmts, groups, inBatch) && Merged(groups, output)
  }

  lemma NewGroup(stmts: seq<seq<Token>>, groups: seq<seq<seq<Token>>>, output: seq<seq<Token>>, stmt: seq<Token>)
    requires Grouped(stmts, groups, false) && Merged(groups, output)
    ensures Grouped(stmts + [stmt], groups + [[stmt]], Begins(stmt))
    ensures Merged(groups + [[stmt]], output + [stmt])
  {
    FlattenPush(groups, [stmt]);
    FlattenPush([], stmt);
    assert [] + [stmt] == [stmt] && Flatten<Token>([]) + stmt == stmt;
  }

  lemma OpenGrows(g: seq<seq<Token>>, stmt: seq<Token>)
    requires OpenBatch(g)
    ensures if Applies(stmt) then ClosedGroup(g + [stmt]) else OpenBatch(g + [stmt])
  {
    hide Begins, Applies;
    assert (g + [stmt])[..|g|] == g;
  }

  lemma GrowGroup(stmts: seq<seq<Token>>, groups: seq<seq<seq<Token>>>, output: seq<seq<Token>>, stmt: seq<Token>)
    requires Grouped(stmts, groups, true) && Merged(groups, output)
    ensures var n := |groups| - 1;
            && Grouped(stmts + [stmt], groups[..n] + [groups[n] + [stmt]], !Applies(stmt))
            && Merged(groups[..n] + [groups[n] + [stmt]], output[..n] + [output[n] + stmt])
  {
    hide Begins, Applies, OpenBatch, ClosedGroup;
    var n := |groups| - 1;
    var g := groups[n];
    FlattenPush(groups[..n], g);
    FlattenPush(groups[..n], g + [stmt]);
    FlattenPush(g, stmt);
    OpenGrows(g, stmt);
    hide Flatten;
    assert groups == groups[..n] + [g];
    assert Flatten(groups[..n]) + (g + [stmt]) == Flatten(groups[..n]) + g + [stmt];
  }

  lemma NoGroups()
    ensures Grouped([], [], false) && Merged([], [])
  {}

  lemma SameCount(stmts: seq<seq<Token>>, groups: seq<seq<seq<Token>>>, output: seq<seq<Token>>)
    requires Grouped(stmts, groups, true) && Merged(groups, output)
    ensures |groups| == |output| > 0
  {}

  /** The loop of cql_split_statements over the split statements. */
  method MergeBatches(stmts: seq<seq<Token>>) returns (output: seq<seq<Token>>, inBatch: bool)
    ensures BatchesJoined(stmts, output, inBatch)
  {
    hide Flatten;
    NoGroups();
    output, inBatch := [], false;
    ghost var groups: seq<seq<seq<Token>>> := [];
    hide Grouped, Merged, Begins, Applies;
    assert stmts[..0] == [];
    for i := 0 to |stmts|
      invariant Grouped(stmts[..i], groups, inBatch) && Merged(groups, output)
    {
      var stmt := stmts[i];
      assert stmts[..i + 1] == stmts[..i] + [stmt];
      MarksMean(stmt);
      if inBatch {
        SameCount(stmts[..i], groups, output);
        GrowGroup(stmts[..i], groups, output, stmt);
        ghost var n := |groups| - 1;
        groups := groups[..n] + [groups[n] + [stmt]];
        output := output[..|output| - 1] + [output[|output| - 1] + stmt];
      } else {
        NewGroup(stmts[..i], groups, output, stmt);
        groups := groups + [[stmt]];
        output := output + [stmt];
      }
      if |stmt| > 1 && stmt[0].kind == IDENTIFIER && stmt[1].kind == IDENTIFIER && Lower(stmt[1].text) == "batch" {
        if Lower(stmt[0].text) == "begin" {
          inBatch := true;
        } else if Lower(stmt[0].text) == "apply" {
          inBatch := false;
        }
      }
    }
    assert stmts[..|stmts|] == stmts;
  }

  lemma {:induction false} MergedFlatten(groups: seq<seq<seq<Token>>>, output: seq<seq<Token>>)
    requires Merged(groups, output)
    ensures Flatten(output) == Flatten(Flatten(groups))
    decreases |groups|
  {
    if groups == [] {
    } else {
      var n := |groups| - 1;
      MergedFlatten(groups[..n], output[..n]);
      FlattenConcat(Flatten(groups[..n]), groups[n]);
    }
  }

  function EndCount(s: seq<Token>): nat {
    if s == [] then 0 else EndCount(s[..|s| - 1]) + (if s[|s| - 1].kind == ENDTOKEN then 1 else 0)
  }

  lemma {:induction false} FewEnds(s: seq<Token>)
    requires NoEnd(s)
    ensures EndCount(s) == 0
  {
    if s == [] {
    } else {
      FewEnds(s[..|s| - 1]);
    }
  }

  /** cql_split_statements on massaged tokens: the pieces make up the tokens again, a
      piece with several end tokens is a batch, and the flag says that the last piece
      is a batch not closed yet. */
  method SplitStatements(tokens: seq<Token>) returns (output: seq<seq<Token>>, inBatch: bool)
    ensures Flatten(output) == tokens && output != []
    ensures forall k | 0 <= k < |output| && EndCount(output[k]) > 1 :: Begins(output[k])
    ensures exists stmts :: IsSplit(tokens, stmts) && BatchesJoined(stmts, output, inBatch)
  {
    var stmts := SplitList(tokens);
    output, inBatch := MergeBatches(stmts);
    ghost var groups :| Grouped(stmts, groups, inBatch) && Merged(groups, output);
    MergedFlatten(groups, output);
    assert groups != [] by {
      assert Flatten(groups) != [];
    }
    forall k | 0 <= k < |output| && EndCount(output[k]) > 1 ensures Begins(output[k]) {
      SeveralEndsIsBatch(tokens, stmts, groups, inBatch, k);
    }
  }

  lemma SeveralEndsIsBatch(tokens: seq<Token>, stmts: seq<seq<Token>>, groups: seq<seq<seq<Token>>>,
                           inBatch: bool, k: nat)
    requires IsSplit(tokens, stmts) && Grouped(stmts, groups, inBatch) && k < |groups|
    requires EndCount(Flatten(groups[k])) > 1
    ensures Begins(Flatten(groups[k]))
  {
    var g := groups[k];
    if |g| == 1 && !Begins(g[0]) {
      SingleEnds(tokens, stmts, groups, k);
      assert false;
    }
    FlattenHead(g);
    assert Begins(g[0]);
  }

  lemma SingleEnds(tokens: seq<Token>, stmts: seq<seq<Token>>, groups: seq<seq<seq<Token>>>, k: nat)
    requires IsSplit(tokens, stmts) && Flatten(groups) == stmts && k < |groups| && |groups[k]| == 1
    ensures EndCount(Flatten(groups[k])) <= 1
  {
    var g := groups[k];
    MemberOfFlatten(groups, k, g[0]);
    var i :| 0 <= i < |stmts| && stmts[i] == g[0];
    assert Ends(stmts[i]) || NoEnd(stmts[i]);
    OneEnd(g[0]);
    assert Flatten(g[..0]) == [] && [] + g[0] == g[0];
  }

  lemma OneEnd(s: seq<Token>)
    requires Ends(s) || NoEnd(s)
    ensures EndCount(s) <= 1
  {
    if s != [] {
      var init := s[..|s| - 1];
      assert NoEnd(init);
      FewEnds(init);
    }
  }
}
