# Parsers, a cluster protocol and a forest of decision trees

A Dafny model of the parts of this repository that decide something, with proofs
about them. Methods have the loops and the fields of the original and are proved
against functions or relations; the lemmas say what those functions mean.

* **Parser combinators** (`Matchers`, `Derivations`, `Listings`, `Captures`, `Loops`,
  `Reports`, `Halting`, `Continuations`, `Languages`, `MatchEngine`): the all-parses engine
  behind cqlsh. `Derivations` defines derivation trees without any notion of context; the
  matchers find exactly those, in the order `Listings` gives them, with the bindings
  `Captures` reads off the trees. Matching need not end, so `Matchers.Run` says what a call has come to with a
  bounded number of nested rule references and repeat rounds; `Halting.ReturnsExactly`
  says, without any bound and for every grammar and input, when it returns. The methods
  of `MatchEngine` are proved wherever the match ends. Errors of the original (unknown
  rule, collector on top of a plain binding) are results, not preconditions.
* **Rule notation** (`RuleReader`, `RulePrinter`): the parser that reads grammars,
  its range, and the round trip through it.
* **CQL passes** (`CqlStatements`, `CqlQuoting`): massaging, splitting, quoting.
* **Ringmaster** (`Ringmaster`, `Handouts`, `Clients`, `LogMasterSources`, `Interleaving`,
  `Interplay`, `Serial`, `TarSources`, `HodRing`, `HodReports`, `HodParams`, `IdleMonitor`): the
  protocol by which hodrings obtain the namenode, jobtracker and worker commands. Runs
  are arbitrary sequences of calls, or of their single steps. Dictionary orders, random
  draws and times are parameters.
* **Decision trees and forest** (`CandleOrder`, `TreeShape`, `LeafGains`, `TreeBuilder`,
  `RandomForest`): entropy is any function of the label counts that is zero exactly
  on pure lists; splits, routing and votes are proved for all of them.
* **Candles** (`CandleAggregator`) and **sorting** (`ShakerSort`).

Where the code and what is said about it differ, the code is modelled; each case has a
run or input that shows it and the exact condition:

* A repeat over nothing or a left-recursive rule keeps a match from returning
  (`Loops.EndlessNeverReturns`, `Halting.ReturnsExactly`). Where a path leads to such a
  loop and another to an error, the match does not return; which of the two happens
  depends on the order of the alternatives (`Halting.OrderDecides`).
* The tree builder may cut between equal keys, and such candles are then routed
  away from their own leaf (`TreeShape.TieForgets`, `TreeShape.RoutesHomeExactly`).
* `setHodRingErrors` strips the pid inside its loop (`Handouts.OwnMasterSpared`,
  `Handouts.OtherMasterHit`, `Handouts.FailsItsOwnExactly`).
* A service stays initialized after its master failed, so the old address is given away
  until the failure limit is passed; and a report that cannot be read to its end has
  already written its address (`Handouts.StaleHandout`, `Handouts.HalfReadHandout`,
  `Handouts.AddressLiveExactly`).
* Completion offers a terminal even if nothing can follow it
  (`Continuations.OfferLeadsNowhere`, `Continuations.ContinuesExactly`).
* An attribute that is an empty list makes a hodring's whole report unreadable
  (`HodReports.EmptyListUnread`, `HodReports.ReportReadBack`).
* `getCommand` and the reports hold different locks (`Interleaving.HandoutLost`,
  `Interleaving.SuccessMisplaced`, `Interleaving.AstrayExactly`,
  `Interleaving.KeptExactly`).
* An address offered twice ends with a negative count, which `getTarList` takes for its
  start marker (`TarSources.ReofferGoesNegative`, `TarSources.BalanceKeptExactly`,
  `TarSources.Sources.GetTarList`).
* The start value of the maximum is the smallest positive double, so a minute with
  no positive price makes the aggregator fail (`CandleAggregator.ZeroPriceFails`,
  `CandleAggregator.Aggregate`).
* A forest cannot be grown from one candle (`RandomForest.Forest.BuildForest`).

## Model

| member | source | states |
|---|---|---|
| `Derivations.FoundExactly` | MRRandonForest/apache-cassandra-1.2.6/pylib/cqlshlib/pylexotron.py:145-300 | soundness and completeness of all matchers at once, for every grammar: when a match returns, a context is found if and only if some derivation tree of the grammar covers a prefix of the remaining tokens and leads to it |
| `Derivations.Soundness` | MRRandonForest/apache-cassandra-1.2.6/pylib/cqlshlib/pylexotron.py:145-300 | every context found comes with a tree: its yield is what was consumed and its captures give the bindings (`Captures.FoundBindings` says which) |
| `Derivations.Completeness` | MRRandonForest/apache-cassandra-1.2.6/pylib/cqlshlib/pylexotron.py:145-300 | every tree that fits the remaining tokens leads to a context that is found, through choices, nested repeats and recursive rules |
| `Listings.ListedInOrder` | MRRandonForest/apache-cassandra-1.2.6/pylib/cqlshlib/pylexotron.py:145-218 | the list a match returns holds the context of every fitting derivation exactly once, from the first to the last: earlier alternatives first, leaving out before taking, fewer rounds before more, and otherwise as the first parts that differ |
| `Listings.FirstIsFirst` | MRRandonForest/apache-cassandra-1.2.6/pylib/cqlshlib/pylexotron.py:446-452 | the first context without remainder is that of the first derivation of all the tokens |
| `Captures.FoundBindings` | MRRandonForest/apache-cassandra-1.2.6/pylib/cqlshlib/pylexotron.py:192-218 | after any derivation found: a symbol is bound to the text of its last capture, a collector to its old items and then the texts of all its captures in order, and every other name as before |
| `Captures.TextOfCapture` | MRRandonForest/apache-cassandra-1.2.6/pylib/cqlshlib/pylexotron.py:91-101 | the text of a capture is the source from the start of its first token to the end of its last, or, without a source, the tokens joined by single blanks |
| `Reports.OffersExactly` | MRRandonForest/apache-cassandra-1.2.6/pylib/cqlshlib/pylexotron.py:461-471 | the completions offered by a match that returns are exactly those some derivation, cut off where the tokens end, needs next; a registered completer answers in place of its body |
| `Continuations.ContinuesExactly` | MRRandonForest/apache-cassandra-1.2.6/pylib/cqlshlib/pylexotron.py:461-471 | without registered completers: a terminal takes the next token of some derivation that begins with the tokens if and only if some path that can be gone to the end leads to it |
| `Continuations.OffersContinue` | MRRandonForest/apache-cassandra-1.2.6/pylib/cqlshlib/pylexotron.py:461-471 | so whatever can follow the tokens in a derivation is offered, and in a grammar whose matchers all derive something nothing else is |
| `Continuations.OfferLeadsNowhere` | MRRandonForest/apache-cassandra-1.2.6/pylib/cqlshlib/pylexotron.py:461-471 | elsewhere an offer can lead to no derivation: a matcher that shows it |
| `Reports.RaisesExactly` | MRRandonForest/apache-cassandra-1.2.6/pylib/cqlshlib/pylexotron.py:170-218 | a match that ends raises if and only if some path leads to an unknown rule, to a collector that meets a plain binding or to a stray JUNK token, and then raises such an error |
| `Reports.CaptureFails` | MRRandonForest/apache-cassandra-1.2.6/pylib/cqlshlib/pylexotron.py:208-218 | a capture adds an error of its own exactly when it collects and its name can by then be bound to a plain string |
| `Reports.CaptureOffers` | MRRandonForest/apache-cassandra-1.2.6/pylib/cqlshlib/pylexotron.py:118-140 | with the tokens used up, a completer registered for the production and the name answers in place of what is captured; otherwise the body does |
| `Reports.TerminalOffers` | MRRandonForest/apache-cassandra-1.2.6/pylib/cqlshlib/pylexotron.py:224-297 | a terminal is offered exactly where the tokens have run out: a literal by a text that it then takes, a regular expression as a hint with the production's name |
| `Reports.TakesExactly` | MRRandonForest/apache-cassandra-1.2.6/pylib/cqlshlib/pylexotron.py:224-297 | which tokens a terminal takes: literals letter by letter up to case, or in their own case after `@`, and token types by the token's kind |
| `Halting.ReturnsExactly` | MRRandonForest/apache-cassandra-1.2.6/pylib/cqlshlib/pylexotron.py:145-300 | for every grammar and context: match returns if and only if no path leads to an error, to a repeat whose body can match nothing or to a rule that can start with itself; without such a loop it ends, with one and no error it never does |
| `Loops.EndlessNeverReturns` | MRRandonForest/apache-cassandra-1.2.6/pylib/cqlshlib/pylexotron.py:157-178 | a repeat over a body that can match nothing, and a left-recursive rule, return in no context, however long one waits: every round has a context to go on with, every call another nested in it |
| `Halting.MoreTime` | MRRandonForest/apache-cassandra-1.2.6/pylib/cqlshlib/pylexotron.py:145-300 | what a bounded number of nested calls and rounds has decided, more of them do not change, so the bound is no part of the result |
| `Halting.OrderDecides` | MRRandonForest/apache-cassandra-1.2.6/pylib/cqlshlib/pylexotron.py:145-168 | with an error and a loop on the way, the order of the alternatives decides whether the match raises or never ends |
| `Halting.TerminatingEnds` | MRRandonForest/apache-cassandra-1.2.6/pylib/cqlshlib/pylexotron.py:157-190 | without left recursion and repeats over nothing, every match ends, on every input |
| `Languages.RegularNeverRaises` | MRRandonForest/apache-cassandra-1.2.6/pylib/cqlshlib/pylexotron.py:170-218 | resolved references and one way of capturing per name rule out every error, for all inputs; with no left recursion and no repeat over nothing every match then returns |
| `Languages.WholeMatchExactly` | MRRandonForest/apache-cassandra-1.2.6/pylib/cqlshlib/pylexotron.py:439-452 | a context that used up all tokens is found exactly for the token lists of the language |
| `Languages.Conserved` | MRRandonForest/apache-cassandra-1.2.6/pylib/cqlshlib/pylexotron.py:82-89 | tokens only move from the remainder to the matched part; production name and source text come back unchanged |
| `MatchEngine.Match` | MRRandonForest/apache-cassandra-1.2.6/pylib/cqlshlib/pylexotron.py:145-300 | wherever the match ends, the dispatch over matcher classes returns the contexts of all fitting derivations, each once and in order, with exactly the bindings their captures make, collecting completions or not, and adds exactly the specified offers to the shared set |
| `MatchEngine.MatchChoice` | MRRandonForest/apache-cassandra-1.2.6/pylib/cqlshlib/pylexotron.py:145-151 | the loop over alternatives |
| `MatchEngine.MatchRepeat` | MRRandonForest/apache-cassandra-1.2.6/pylib/cqlshlib/pylexotron.py:157-168 | the breadth-first closure loop returns the specified contexts in order |
| `MatchEngine.MatchSeries` | MRRandonForest/apache-cassandra-1.2.6/pylib/cqlshlib/pylexotron.py:180-190 | the loop over the pieces, with its early return |
| `MatchEngine.MatchCapture` | MRRandonForest/apache-cassandra-1.2.6/pylib/cqlshlib/pylexotron.py:192-218 | symbols and collectors, with the throw-away completion set behind a registered completer: the contexts of all fitting derivations in order, a symbol bound to the text of its last capture and a collector to its old items and then all its texts in order |
| `MatchEngine.WholeMatch` | MRRandonForest/apache-cassandra-1.2.6/pylib/cqlshlib/pylexotron.py:446-452 | there is a result if and only if the tokens are in the language; it is the context of the first derivation of all the tokens, in the order of the alternatives, and binds exactly that derivation's captures; raises exactly as stated, and an error some path leads to |
| `MatchEngine.Complete` | MRRandonForest/apache-cassandra-1.2.6/pylib/cqlshlib/pylexotron.py:461-471 | for any initial bindings: returns exactly the next terminals of cut-off derivations, in a fruitful grammar exactly those that can follow, or raises exactly when a path leads to an error, and such an error |
| `RuleReader.ReadRuleTokensUntil` | MRRandonForest/apache-cassandra-1.2.6/pylib/cqlshlib/pylexotron.py:358-411 | the loop over an iterator, its branches and its counted mode read what the specification reads, leave the iterator there, and fail with the same error; a JUNK token stays in the rule |
| `RuleReader.ParseRuleTokens` | MRRandonForest/apache-cassandra-1.2.6/pylib/cqlshlib/pylexotron.py:327-348 | the loop over rule definitions, later definitions overwriting earlier ones |
| `RulePrinter.BodyReads` | MRRandonForest/apache-cassandra-1.2.6/pylib/cqlshlib/pylexotron.py:358-411 | round trip: any such matcher, written out and read back, is the same matcher, and reading stops right behind the end mark |
| `RulePrinter.AtomReads` | MRRandonForest/apache-cassandra-1.2.6/pylib/cqlshlib/pylexotron.py:385-410 | round trip in the count-limited mode behind a capture: exactly one rule is taken |
| `RulePrinter.PrintInjective` | MRRandonForest/apache-cassandra-1.2.6/pylib/cqlshlib/pylexotron.py:358-411 | no two matchers are written alike |
| `RulePrinter.ReadableExactly` | MRRandonForest/apache-cassandra-1.2.6/pylib/cqlshlib/pylexotron.py:350-411 | the matchers some rule text defines are exactly those the printer writes |
| `RulePrinter.RuleSetReads` | MRRandonForest/apache-cassandra-1.2.6/pylib/cqlshlib/pylexotron.py:327-348 | a whole rule set survives writing and reading: each name has what its last rule defines, a bare terminal as a token type, no other name is defined, and the terminals are listed in order |
| `RulePrinter.BodyFails` | MRRandonForest/apache-cassandra-1.2.6/pylib/cqlshlib/pylexotron.py:358-411 | the errors behind any printed rule: tokens that end, a token that cannot stand there, nothing to repeat, a literal missing or without quotes |
| `RulePrinter.RuleSetFails` | MRRandonForest/apache-cassandra-1.2.6/pylib/cqlshlib/pylexotron.py:327-348 | the errors behind any printed rule set: no name, the end behind a name, or no '::=' |
| `CqlStatements.MassageTokens` | MRRandonForest/apache-cassandra-1.2.6/pylib/cqlshlib/cqlhandling.py:146-171 | the loop computes the massaged tokens |
| `CqlStatements.MassageIdempotent` | MRRandonForest/apache-cassandra-1.2.6/pylib/cqlshlib/cqlhandling.py:146-171 | no line end is left, and massaging again changes nothing |
| `CqlStatements.LineEndExactly` | MRRandonForest/apache-cassandra-1.2.6/pylib/cqlshlib/cqlhandling.py:146-171 | token by token: a line end becomes an end token exactly when the statement it stands in began with a command that ends with the line, and is dropped otherwise; every other token stays as it is |
| `CqlStatements.MassageKeepsWords` | MRRandonForest/apache-cassandra-1.2.6/pylib/cqlshlib/cqlhandling.py:146-171 | nothing but line ends is dropped and nothing is moved |
| `CqlStatements.SplitList` | MRRandonForest/apache-cassandra-1.2.6/pylib/cqlshlib/util.py:19-37 | the pieces make up the items, each but the last ends with the only end token in it, the last has none |
| `CqlStatements.SplitStatements` | MRRandonForest/apache-cassandra-1.2.6/pylib/cqlshlib/cqlhandling.py:181-199 | the pieces make up the tokens; a piece with several end tokens starts with BEGIN BATCH; pieces are plain statements or batches up to their first APPLY; the flag says that the last piece is an open batch |
| `CqlQuoting.EscapeRoundTrip` | MRRandonForest/apache-cassandra-1.2.6/pylib/cqlshlib/cqlhandling.py:395-414 | unquoting a quoted string returns it, and the quoted form is one whole literal of the lexical rule |
| `CqlQuoting.LiteralRoundTrip` | MRRandonForest/apache-cassandra-1.2.6/pylib/cqlshlib/cqlhandling.py:451 | quoting an unquoted literal returns the literal, so strings and literals correspond one to one |
| `CqlQuoting.EscapeInjective` | MRRandonForest/apache-cassandra-1.2.6/pylib/cqlshlib/cql3handling.py:134-149 | two strings, or names, are never quoted alike |
| `CqlQuoting.ValueRoundTrip` | MRRandonForest/apache-cassandra-1.2.6/pylib/cqlshlib/cqlhandling.py:395-414 | None, truth values, numbers and strings: unquoting gives back the text, and only a truth value and the string of its name are escaped alike |
| `CqlQuoting.EscapesExactly` | MRRandonForest/apache-cassandra-1.2.6/pylib/cqlshlib/cqlhandling.py:404-414 | what is written for None, truth values, numbers and strings |
| `CqlQuoting.DequoteExactly` | MRRandonForest/apache-cassandra-1.2.6/pylib/cqlshlib/cqlhandling.py:395-402 | any word, with any blanks around it: between quotes it loses them, a lone quote is nothing, and any other word stays as it is |
| `CqlQuoting.SingleRuns` | MRRandonForest/apache-cassandra-1.2.6/pylib/cqlshlib/cqlhandling.py:401 | of a run of quotes inside, every two make one and an odd one stays |
| `Ringmaster.RunsKeep` | MRRandonForest/hadoop-1.2.1/contrib/hod/hodlib/GridServices/service.py:121-170 | in every run of requests: a launched master is within the failure limit, the count within the limit plus one, failures carry a message, an initialized service has an address |
| `Ringmaster.ErrorAnswerIsFinal` | MRRandonForest/hadoop-1.2.1/contrib/hod/hodlib/RingMaster/ringMaster.py:477-506 | the error answer is given exactly when the count is over the limit, and then stays the same whatever is called later |
| `Ringmaster.HandedOut` | MRRandonForest/hadoop-1.2.1/contrib/hod/hodlib/RingMaster/ringMaster.py:361-400 | in every reachable state, in the fields of the services: who is given which master, with the namenode's format command first exactly if formatting is configured and its start with the configured upgrade last, the jobtracker with the namenode's known address, and otherwise the workers of both services, numbered from 1, or nothing; a missing address never occurs |
| `Handouts.AddressLiveExactly` | MRRandonForest/hadoop-1.2.1/contrib/hod/hodlib/RingMaster/ringMaster.py:361-400 | over all runs: an address handed out in a command or answered to a client is the one in the last accepted report of a master not failed since, and its sender holds the master, if and only if the failure count is zero and no half-read report has written over it; with count zero the address in use always comes from the hodring that holds the master |
| `Handouts.CurrentExactly` | MRRandonForest/hadoop-1.2.1/contrib/hod/hodlib/GridServices/hdfs.py:141-150 | the history behind it, for either service and any run |
| `Handouts.WriterHolds` | MRRandonForest/hadoop-1.2.1/contrib/hod/hodlib/RingMaster/ringMaster.py:424-444 | while a master is up, the report that wrote the address in use is the accepted one or a later one, of the hodring that holds the master |
| `Handouts.LiveExactly` | MRRandonForest/hadoop-1.2.1/contrib/hod/hodlib/GridServices/service.py:121-170 | the history behind it: an accepted report that no failure has followed exists exactly when the service is initialized with count zero, and the hodring that sent it then still holds the master |
| `Handouts.AddressFrom` | MRRandonForest/hadoop-1.2.1/contrib/hod/hodlib/GridServices/hdfs.py:141-150 | which report the address in use comes from: the last one that wrote it, even if it then could not be read to its end |
| `Handouts.StaleHandout` | MRRandonForest/hadoop-1.2.1/contrib/hod/hodlib/RingMaster/ringMaster.py:370-382 | a run after which the next jobtracker and the clients are given the address a hodring reported before it failed, though it no longer holds the namenode, in either order of the services |
| `Handouts.HalfReadHandout` | MRRandonForest/hadoop-1.2.1/contrib/hod/hodlib/GridServices/hdfs.py:141-150 | a run after which they are given an address of no accepted report, though the namenode is up |
| `Handouts.HandoutSticks` | MRRandonForest/hadoop-1.2.1/contrib/hod/hodlib/RingMaster/ringMaster.py:361-467 | a master stays launched and with its hodring through a run exactly as long as no report blames it |
| `Handouts.ErrorsExactly` | MRRandonForest/hadoop-1.2.1/contrib/hod/hodlib/RingMaster/ringMaster.py:446-467 | for every state, order and report, which services an error report fails and with which message, the pid being stripped inside the loop |
| `Handouts.FailsItsOwnExactly` | MRRandonForest/hadoop-1.2.1/contrib/hod/hodlib/RingMaster/ringMaster.py:454-462 | a report fails just the services of its own hodring, except exactly when the first service in the walk is its own, its name has a pid, and the second is its own too or belongs to a hodring named like the host |
| `Handouts.OwnMasterSpared` | MRRandonForest/hadoop-1.2.1/contrib/hod/hodlib/RingMaster/ringMaster.py:454-462 | a run to a hodring that holds both masters, whose error then fails only one |
| `Handouts.OtherMasterHit` | MRRandonForest/hadoop-1.2.1/contrib/hod/hodlib/RingMaster/ringMaster.py:454-462 | a run to two hodrings of which one is named like the host of the other, whose error then fails both |
| `Handouts.ParamsExactly` | MRRandonForest/hadoop-1.2.1/contrib/hod/hodlib/RingMaster/ringMaster.py:424-444 | for every state, order and report, which services a report of parameters changes and how |
| `Handouts.ReportRead` | MRRandonForest/hadoop-1.2.1/contrib/hod/hodlib/GridServices/hdfs.py:141-150 | what a report must say, under which keys, to be taken over, and what it sets; a namenode's here, a jobtracker's likewise in mapred.py:143-152 |
| `LogMasterSources.Sources.HandOut` | MRRandonForest/hadoop-1.2.1/contrib/hod/hodlib/RingMaster/ringMaster.py:361-400 | getCommand as loops over the services: the new state and the commands as specified and, in the states that occur, as `Ringmaster.Answers` lists them field by field |
| `LogMasterSources.Sources.AddMasterParams` | MRRandonForest/hadoop-1.2.1/contrib/hod/hodlib/RingMaster/ringMaster.py:424-444 | the loop over the services, stopped by the first report that cannot be read |
| `LogMasterSources.Sources.SetHodRingErrors` | MRRandonForest/hadoop-1.2.1/contrib/hod/hodlib/RingMaster/ringMaster.py:446-467 | the loop over the services with the address stripped on the way |
| `Clients.AnswerExactly` | MRRandonForest/hadoop-1.2.1/contrib/hod/hodlib/RingMaster/ringMaster.py:477-506 | what a client is answered after any run: over the limit an error with the host that held the master at the last failure and the text of that report, below it the address last written if a report was ever accepted, and otherwise 'not found' |
| `Clients.LimitReached` | MRRandonForest/hadoop-1.2.1/contrib/hod/hodlib/RingMaster/ringMaster.py:490-498 | for every limit, a run that ends in the error answer |
| `Interleaving.CountBounded` | MRRandonForest/hadoop-1.2.1/contrib/hod/hodlib/RingMaster/ringMaster.py:361-467 | one service, with getCommand and the reports interleaved field by field, as their two locks allow, and reports that may be unreadable: the failure count is still bounded and launches still happen within the limit and when launchable |
| `Interleaving.AstrayExactly` | MRRandonForest/hadoop-1.2.1/contrib/hod/hodlib/RingMaster/ringMaster.py:424-467 | in every interleaving, a report under way is about the hodring that holds the master, except exactly when it matched between the two writes of a getCommand for another hodring |
| `Interleaving.LossExactly` | MRRandonForest/hadoop-1.2.1/contrib/hod/hodlib/RingMaster/ringMaster.py:380-382 | a hodring that loses its master was reported itself, or its predecessor was, exactly while its own name was still to be written |
| `Interleaving.KeptExactly` | MRRandonForest/hadoop-1.2.1/contrib/hod/hodlib/RingMaster/ringMaster.py:361-467 | from any handout on, whatever is under way, a hodring keeps its master and no error report is about to take it if and only if no error report has matched that names it, or names its predecessor in that window |
| `Interleaving.HandoutLost` | MRRandonForest/hadoop-1.2.1/contrib/hod/hodlib/RingMaster/ringMaster.py:380-382 | a run in which a hodring loses a master nobody reported it for |
| `Interleaving.SuccessMisplaced` | MRRandonForest/hadoop-1.2.1/contrib/hod/hodlib/RingMaster/ringMaster.py:424-444 | a run in which a late success report of the old hodring declares the master of the new one initialized |
| `Interplay.EachIsSingle` | MRRandonForest/hadoop-1.2.1/contrib/hod/hodlib/RingMaster/ringMaster.py:361-467 | both services walked over by getCommand and the reports, field by field: what either service goes through is a run of the single service, so all its results hold of both |
| `Interplay.BothCountsBounded` | MRRandonForest/hadoop-1.2.1/contrib/hod/hodlib/RingMaster/ringMaster.py:361-467 | in every such interleaving the failure count of either service is bounded |
| `Interplay.KnownAddresses` | MRRandonForest/hadoop-1.2.1/contrib/hod/hodlib/RingMaster/ringMaster.py:361-400 | in every such interleaving each jobtracker and worker command answered carries a known address, and gathering worker commands never comes upon a missing one |
| `Serial.AskAlone` | MRRandonForest/hadoop-1.2.1/contrib/hod/hodlib/RingMaster/ringMaster.py:361-400 | getCommand without a report in between: the steps under its lock answer and change what the single request does |
| `Serial.ReportAlone` | MRRandonForest/hadoop-1.2.1/contrib/hod/hodlib/RingMaster/ringMaster.py:424-467 | a report without getCommand in between: the writes field by field come to what the single request does, half-read reports included |
| `TarSources.Sources.GetTarList` | MRRandonForest/hadoop-1.2.1/contrib/hod/hodlib/RingMaster/ringMaster.py:136-156 | a least-loaded source with room gets one more download, for any order of the dictionary, and none is given exactly when all are full; except exactly when the lowest count is -1 and the walk goes on behind it: then the source is not least-loaded, or its count jumps over the limit |
| `TarSources.Sources.RegisterTarSource` | MRRandonForest/hadoop-1.2.1/contrib/hod/hodlib/RingMaster/ringMaster.py:120-134 | the counts after a source registers, or the failure on an unknown address |
| `TarSources.CountsArePending` | MRRandonForest/hadoop-1.2.1/contrib/hod/hodlib/HodRing/hodRing.py:567-593 | over all runs: each count is the number of unfinished downloads within 0 and max-connect at every moment if and only if every event is harmless; then full sources have all their downloads under way |
| `TarSources.BalanceKeptExactly` | MRRandonForest/hadoop-1.2.1/contrib/hod/hodlib/RingMaster/ringMaster.py:120-134 | for each event, exactly when it keeps the counts equal to the downloads: a re-offered address must have none under way, a grant must have room, a finisher must have been granted its source |
| `TarSources.DisciplineBalances` | MRRandonForest/hadoop-1.2.1/contrib/hod/hodlib/HodRing/hodRing.py:567-593 | hodrings that finish once per grant and offer new addresses only cause harmless events |
| `TarSources.ReofferGoesNegative` | MRRandonForest/hadoop-1.2.1/contrib/hod/hodlib/RingMaster/ringMaster.py:124-129 | a run from the start to a count of -1, by offering an address again during a download, after which a walk is misled |
| `HodParams.ParseEqualsLoop` | MRRandonForest/hadoop-1.2.1/contrib/hod/hodlib/Common/util.py:257-266 | the loop fills the specified dictionary |
| `HodParams.ParseEqualsExactly` | MRRandonForest/hadoop-1.2.1/contrib/hod/hodlib/Common/util.py:257-266 | parseEquals raises exactly when an entry has no '='; otherwise each key has what the last entry for it says between its first '=' and the next one or the end |
| `HodParams.ParseEqualsConcat` | MRRandonForest/hadoop-1.2.1/contrib/hod/hodlib/Common/util.py:257-266 | two reports read as one list: the later has the last word on each key, and either fails the whole |
| `HodRing.PortPool.GetUniqRandomPort` | MRRandonForest/hadoop-1.2.1/contrib/hod/hodlib/GridServices/service.py:196-227 | the search for a port: in range, not used before and recorded, or none where the search over the draws finds none |
| `HodRing.SearchFindsFirst` | MRRandonForest/hadoop-1.2.1/contrib/hod/hodlib/GridServices/service.py:196-227 | the search finds the first draw of a port neither used nor taken, unless as many others not used as there are retries come before it |
| `HodRing.KeyValPair` | MRRandonForest/hadoop-1.2.1/contrib/hod/hodlib/HodRing/hodRing.py:262-267 | the loop that joins the items of a list value |
| `HodRing.FillsIn` | MRRandonForest/hadoop-1.2.1/contrib/hod/hodlib/HodRing/hodRing.py:258-277 | what each placeholder becomes: a numeral that reads back as the port, or the host, a colon and such a numeral; any other value stays |
| `HodRing.EntriesExactly` | MRRandonForest/hadoop-1.2.1/contrib/hod/hodlib/HodRing/hodRing.py:261-287 | which entries an attribute adds to the report: before an address is filled in and after, the jobtracker's address twice before |
| `HodRing.XmlExactly` | MRRandonForest/hadoop-1.2.1/contrib/hod/hodlib/HodRing/hodRing.py:288-302 | which elements an attribute adds to the file |
| `HodRing.HadoopCommand.CreateXml` | MRRandonForest/hadoop-1.2.1/contrib/hod/hodlib/HodRing/hodRing.py:254-302 | one call of createXML, over strings and lists: ports are in range, unused before and pairwise distinct and are written as their decimal numerals; the report and the XML are those of the filled-in values; it fails only on a list of jobtracker addresses or where the search finds no port |
| `HodRing.HadoopCommand.CreateHadoopSiteXml` | MRRandonForest/hadoop-1.2.1/contrib/hod/hodlib/HodRing/hodRing.py:302-325 | the whole command: both calls of createXML with the merge between them, as one call over all its attributes, with the same two ways to fail |
| `HodRing.OthersLoop` | MRRandonForest/hadoop-1.2.1/contrib/hod/hodlib/HodRing/hodRing.py:318-324 | the loop that leaves out the final attributes |
| `HodRing.ItemsAreMerged` | MRRandonForest/hadoop-1.2.1/contrib/hod/hodlib/HodRing/hodRing.py:316-325 | the two calls see each key of the merged configuration exactly once, a final attribute having the last word |
| `HodRing.StartCommands` | MRRandonForest/hadoop-1.2.1/contrib/hod/hodlib/HodRing/hodRing.py:611-649 | over any sequence of commands of a hodring: the report of each, and ports in range and pairwise distinct over all of them; it fails only where a command does |
| `HodReports.ReportReadBack` | MRRandonForest/hadoop-1.2.1/contrib/hod/hodlib/HodRing/hodRing.py:254-325 | the report of a whole command can be read exactly when no attribute is an empty list; reading it back then gives each key of its configuration, and no other, its final value up to a '=' |
| `HodReports.ReportWholeExactly` | MRRandonForest/hadoop-1.2.1/contrib/hod/hodlib/HodRing/hodRing.py:254-325 | a value comes through the report whole exactly when its text holds no '='; a list of several items never does |
| `HodReports.PortsReadBack` | MRRandonForest/hadoop-1.2.1/contrib/hod/hodlib/HodRing/hodRing.py:258-277 | the port reads back from the report of a whole command as it was drawn |
| `HodReports.ReportedPortsDiffer` | MRRandonForest/hadoop-1.2.1/contrib/hod/hodlib/HodRing/hodRing.py:258-277 | so two attributes with the same placeholder never report the same value |
| `HodReports.ReportMatchesXml` | MRRandonForest/hadoop-1.2.1/contrib/hod/hodlib/HodRing/hodRing.py:254-325 | the value read back is the one in the XML file, but for `hdfs://` in front of the file system's name and the system directory for its placeholder, and never a placeholder for a port |
| `HodReports.MasterReportAccepted` | MRRandonForest/hadoop-1.2.1/contrib/hod/hodlib/RingMaster/ringMaster.py:424-444 | end to end, namenode or jobtracker: the report of a hodring makes the ringmaster answer with host, colon and the decimal numeral of the port drawn for that hodring's own configuration exactly if the walk reaches the service, and leaves the service alone otherwise |
| `IdleMonitor.JobTrackerMonitor.Watch` | MRRandonForest/hadoop-1.2.1/contrib/hod/hodlib/RingMaster/idleJobTracker.py:145-169 | over any trace of polls at positive times, each verdict is true exactly when the maximal idle run ending there began at an earlier poll, the limit or longer ago |
| `IdleMonitor.VerdictExact` | MRRandonForest/hadoop-1.2.1/contrib/hod/hodlib/RingMaster/idleJobTracker.py:157-169 | the time mark decides idleness exactly as the maximal run of polls with no jobs or an error does |
| `CandleOrder.CompareTransitive` | Cassandra/src/CandleStick.java:194-207 | each feature comparison is transitive |
| `CandleOrder.CompareTotal` | Cassandra/src/CandleStick.java:194-207 | and antisymmetric in sign |
| `CandleOrder.CompareMeans` | Cassandra/src/CandleStick.java:194-207 | feature 0 compares times by their first difference, or as one begins the other, 1 the highs, 2 the lows, 3 the closes, each in its own direction, and any other nothing |
| `CandleOrder.StableUnique` | Cassandra/src/CandleStick.java:143-185 | sorting stably has one result only, so the library's sort is the one modelled |
| `TreeShape.GrownWellFormed` | Cassandra/src/DecisionTree.java:30-112 | every node is non-empty, children share out their parent's candles as multisets, left keys <= threshold <= right keys |
| `LeafGains.GrownLeavesDone` | Cassandra/src/DecisionTree.java:30-97 | every leaf is pure, or no cut the builder looked at and no threshold test on a used feature gains more than the bound |
| `TreeShape.GrownUnique` | Cassandra/src/DecisionTree.java:48-112 | the training list determines the tree: each split is the first of maximal gain |
| `TreeShape.EntropyZero` | Cassandra/src/DecisionTree.java:191-222 | by the label counts, entropy is zero exactly for lists of one class |
| `TreeShape.GainWeighs` | Cassandra/src/DecisionTree.java:70-76 | the gain takes off the entropies of the parts, each weighted by its own size |
| `TreeShape.FinalOrderMeans` | Cassandra/src/DecisionTree.java:46-60 | the list a scan leaves is sorted by the last feature and, among equals, in the order the features before it left |
| `TreeShape.SplitsMean` | Cassandra/src/DecisionTree.java:46-68 | the cuts of a feature are those of the list in that order |
| `TreeShape.RoutesHomeExactly` | Cassandra/src/DecisionTree.java:234-257 | every training candle is routed to the leaf that holds it if and only if no split cuts between equal keys |
| `TreeShape.DistinctIsTieFree` | Cassandra/src/DecisionTree.java:63-68 | distinct keys on the used features are enough for that |
| `TreeShape.TrainingRecalled` | Cassandra/src/DecisionTree.java:234-246 | then a training candle in a pure leaf is given its own class back |
| `TreeShape.TieForgets` | Cassandra/src/DecisionTree.java:249-257 | without that, a training candle can be given another label: a list and its tree that show it |
| `TreeBuilder.DTNode.BuildDTree` | Cassandra/src/DecisionTree.java:30-112 | the recursive builder ends and leaves behind the specified tree, in new nodes; at every split no left candle is above the threshold in the split's own field and no right one below it |
| `TreeBuilder.DTNode.ScanSplits` | Cassandra/src/DecisionTree.java:48-89 | the double loop finds the first best of all candidates while sorting the list in place |
| `TreeBuilder.DTNode.FindMatch` | Cassandra/src/DecisionTree.java:234-246 | the descent returns the specified label, and fails exactly in an empty leaf; that is the label of the first candle in the leaf reached by going left exactly where the candle's time, high, low or close is below the threshold's |
| `TreeBuilder.CountLabels` | Cassandra/src/DecisionTree.java:191-203 | the loop counts the candles labelled 1, -1 and anything else |
| `RandomForest.CountVotes` | Cassandra/src/RandomForest.java:88-117 | each chosen label has at least one vote and as many as any other, in whatever order the map is walked; no trees is the only failure |
| `RandomForest.CountLabelVotes` | Cassandra/src/RandomForest.java:95-102 | the loop builds the vote table: the true count of each label that was voted for, and no other, in all as many as there are trees |
| `RandomForest.VotesAddUp` | Cassandra/src/RandomForest.java:95-102 | the entries of the vote map add up to the number of trees |
| `RandomForest.MajorityWins` | Cassandra/src/RandomForest.java:104-113 | a label more than half of the trees vote for is always chosen |
| `RandomForest.ForestMajorityWins` | Cassandra/src/RandomForest.java:74-113 | a label more than half of the trees predict is the only answer a forest can give |
| `RandomForest.Forest.BuildForest` | Cassandra/src/RandomForest.java:27-59 | for any shuffles, every tree is grown from two thirds of the candles on two different features; it fails exactly for a single candle |
| `RandomForest.Forest.Classify` | Cassandra/src/RandomForest.java:74-86 | each answer has a plurality of the trees' predictions; it fails exactly without trees or if a tree has no label for a candle |
| `RandomForest.AnswersTrainingLabel` | Cassandra/src/RandomForest.java:74-117 | whatever the forest answers is the label of a candle in the share of a tree that voted for it |
| `RandomForest.GrownForestAnswers` | Cassandra/src/RandomForest.java:27-86 | a forest grown from two candles or more has a label for everything |
| `CandleAggregator.Aggregate` | DataPrep/src/DataPrep.java:25-97 | the one-pass loop emits what grouping into runs prescribes, labels pointing to where the next close lies, and fails if and only if a run that another one follows has no price past a start value |
| `CandleAggregator.AllButTwo` | DataPrep/src/DataPrep.java:38-85 | for prices between the start values: exactly the candles of all runs but the last two, each with the true maximum, minimum and last price, and with label 1 exactly where the last price of the next run is higher, -1 where it is lower and 0 where it is equal |
| `CandleAggregator.ZeroPriceFails` | DataPrep/src/CandleStick.java:29-35 | it does fail: on a minute whose only price is zero, followed by another minute |
| `CandleAggregator.RunsPartition` | DataPrep/src/DataPrep.java:48-71 | the runs are the ticks cut wherever the minute changes and only there |
| `ShakerSort.Sort` | MRRandonForest/hadoop-1.2.1/webapps/static/sorttable.js:302-331 | ends with a sorted rearrangement in which equal elements keep their order, for every total preorder |
| `ShakerSort.SwapKeepsTies` | MRRandonForest/hadoop-1.2.1/webapps/static/sorttable.js:313-325 | a swap of neighbours that are out of order disturbs no group of equal elements |

## Left out

- Lexing: regular expressions, `make_lexer` and the evaluation of quoted literals are parameters of a grammar; matching starts from token lists.
- Debug tracing (`*DEBUG*`, `Debugotron`), and completers that raise: a registered completer is a total function of the context.
- RuleReader.ParseRuleTokens: starts from notation tokens; unparseable text before that is not modelled.
- CQL completion (`cql_complete_*`), table definitions, formatting and help topics.
- External services and admin commands of the ringmaster; with external services the worker loop of `getCommand` tests a leftover variable.
- Interleaving.CountBounded: one service; both are in `Interplay.BothCountsBounded`.
- Interplay.EachIsSingle: a worker command reads the two addresses it carries in one step.
- Ringmaster.HandedOut: commands carry the addresses they are built from, not their environment, directories and remaining attributes.
- TarSources.Sources.RegisterTarSource: the lock that stays held after the failure on an unknown address is not a field.
- HodRing.PortPool.GetUniqRandomPort: partial correctness; a port already used costs no retry, so the search itself need not end, and the model stops when its random draws do.
- HodRing.StartCommands: the commands are configured one after the other, not run; the order in which their reports are joined into one list is left open.
- HodRing.HadoopCommand.CreateXml: the other parts of the XML document are not modelled.
- Sockets, XML-RPC, threads, processes, Torque and files.
- RandomForest.Forest.BuildForest: the accuracy figures are not modelled.
- Logarithms, rounding and overflow in the scores; NaN and signed zeros in comparisons.
- CandleAggregator.Aggregate: ticks are read and split already; malformed lines and the text of the output are not modelled.
- ShakerSort.Sort: comparisons that are no total preorder.
- The Hadoop, Cassandra and Spark drivers, the other copies of the tree and forest classes, and the rest of `sorttable.js`.
