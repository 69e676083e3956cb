/** getCommand holds one lock, the reporting RPCs another, so their reads and writes
    of a service interleave, field by field. */
module Interleaving {
  import opened Common

  /** Where the one getCommand in flight stands. */
  datatype Asker =
    | AskIdle
    | AskStart(ring: string)
    | SawLaunchable(ring: string)   // isLaunchable() was true
    | SawUnlaunched(ring: string)   // isMasterLaunched() was false
    | SawCount(ring: string)        // the failure count was within the limit
    | SetFlag(ring: string)         // setlaunchedMaster done, setMasterAddress to come

  /** addMasterParams with a report that can be read or not, or setHodRingErrors. */
  datatype Kind = Accepted | Unreadable | Failed

  /** Where the one report in flight stands. */
  datatype Reporter =
    | Silent
    | ReportStart(ring: string, kind: Kind)
    | SawLaunched(ring: string, kind: Kind)
    | Matched(ring: string, kind: Kind)       // getMasterAddress() was the reporting ring
    | ReadCount(ring: string, count: nat)     // masterFailureCount += 1, half done
    | WroteCount(ring: string)                // failedMsg to come
    | WroteMsg(ring: string)                  // launchedMaster = False to come
    | WroteInit(ring: string)                 // failure fields to be reset
    | WroteZero(ring: string)

  /** `launchable`: for the jobtracker, the namenode has been initialized; for the
      namenode, true from the start. */
  datatype Shared = Shared(
    launchable: bool, launched: bool, initialized: bool, masterAddress: string, failed: bool, count: nat,
    asker: Asker, reporter: Reporter)

  const START := Shared(false, false, false, "none", false, 0, AskIdle, Silent)

  datatype Event =
    | Opens
    | Ask(ring: string)
    | Report(ring: string, kind: Kind)
    | AskerMoves
    | ReporterMoves

  function MoveAsker(max: int, s: Shared): Shared {
    match s.asker
    case AskIdle => s
    case AskStart(r) => s.(asker := if s.launchable then SawLaunchable(r) else AskIdle)
    case SawLaunchable(r) => s.(asker := if s.launched then AskIdle else SawUnlaunched(r))
    case SawUnlaunched(r) => s.(asker := if s.count <= max then SawCount(r) else AskIdle)
    case SawCount(r) => s.(launched := true, asker := SetFlag(r))
    case SetFlag(r) => s.(masterAddress := r, asker := AskIdle)
  }

  function MoveReporter(s: Shared): Shared {
    match s.reporter
    case Silent => s
    case ReportStart(r, kind) => s.(reporter := if s.launched then SawLaunched(r, kind) else Silent)
    case SawLaunched(r, kind) => s.(reporter := if s.masterAddress == r then Matched(r, kind) else Silent)
    case Matched(r, Unreadable) => s.(reporter := Silent)
    case Matched(r, Accepted) => s.(initialized := true, reporter := WroteInit(r))
    case Matched(r, Failed) => s.(reporter := ReadCount(r, s.count))
    case ReadCount(r, n) => s.(count := n + 1, reporter := WroteCount(r))
    case WroteCount(r) => s.(failed := true, reporter := WroteMsg(r))
    case WroteMsg(r) => s.(launched := false, reporter := Silent)
    case WroteInit(r) => s.(count := 0, reporter := WroteZero(r))
    case WroteZero(r) => s.(failed := false, reporter := Silent)
  }

  /** The locks: a call starts only when no other one of its side is under way. */
  function Next(max: int, s: Shared, e: Event): Shared {
    match e
    case Opens => s.(launchable := true)
    case Ask(r) => if s.asker == AskIdle then s.(asker := AskStart(r)) else s
    case Report(r, kind) => if s.reporter == Silent then s.(reporter := ReportStart(r, kind)) else s
    case AskerMoves => MoveAsker(max, s)
    case ReporterMoves => MoveReporter(s)
  }

  function Run(max: int, es: seq<Event>): Shared
    decreases |es|
  {
    if es == [] then START else Next(max, Run(max, es[..|es| - 1]), es[|es| - 1])
  }

  predicate PastCheck(r: Reporter) {
    !r.Silent? && !r.ReportStart?
  }

  predicate PastMatch(r: Reporter) {
    PastCheck(r) && !r.SawLaunched?
  }

  predicate Failing(r: Reporter) {
    (r.Matched? && r.kind.Failed?) || r.ReadCount? || r.WroteCount? || r.WroteMsg?
  }

  predicate Counting(r: Reporter) {
    r.WroteCount? || r.WroteMsg?
  }

  ghost predicate Inv(max: int, s: Shared) {
    // a report past its check keeps the flag up, an asker past its check saw it down
    && (PastCheck(s.reporter) ==> s.launched)
    && (s.asker.SawUnlaunched? || s.asker.SawCount? ==> !s.launched)
    && (s.asker.SawCount? ==> s.count <= max)
    && (s.launched && !Counting(s.reporter) ==> s.count <= max)
    && (s.reporter.ReadCount? ==> s.reporter.count == s.count)
    && (s.count == 0 || s.count <= max + 1)
    && (s.launched || (!s.asker.AskIdle? && !s.asker.AskStart?) ==> s.launchable)
  }

  lemma NextKeeps(max: int, s: Shared, e: Event)
    requires Inv(max, s)
    ensures Inv(max, Next(max, s, e))
  {}

  /** However the steps interleave: the count never passes the limit plus one, a
      launch only happens within the limit, and between reports a launched master
      has a count within the limit. */
  lemma {:induction false} CountBounded(max: int, es: seq<Event>)
    ensures var s := Run(max, es);
            && Inv(max, s)
            && (s.count == 0 || s.count <= max + 1)
            && (s.launched && s.reporter.Silent? ==> s.count <= max)
            && (!s.launched && MoveAsker(max, s).launched ==> s.count <= max && s.launchable)
    decreases |es|
  {
    if es == [] {
    } else {
      CountBounded(max, es[..|es| - 1]);
      NextKeeps(max, Run(max, es[..|es| - 1]), es[|es| - 1]);
    }
  }

  // ----- what the two locks do not protect -----

  /** The hodring that was given the master: the one whose getCommand is between its
      two writes, or else the one recorded. */
  function Holder(s: Shared): Option<string> {
    if !s.launched then None else if s.asker.SetFlag? then Some(s.asker.ring) else Some(s.masterAddress)
  }

  /** A hodring that holds the master only loses it to the last write of an error
      report, and nothing else happens to the holder while a report is past its match. */
  lemma HolderMoves(max: int, s: Shared, e: Event)
    requires Inv(max, s)
    ensures var next := Next(max, s, e);
            && (Holder(s).Some? && Holder(next) != Holder(s) ==> Holder(next).None? && s.reporter.WroteMsg?)
            && (PastMatch(s.reporter) ==> s.launched)
            && (PastMatch(s.reporter) && PastMatch(next.reporter) ==> Holder(next) == Holder(s))
  {}

  lemma ReportMoves(max: int, s: Shared, e: Event)
    requires Inv(max, s)
    ensures var next := Next(max, s, e);
            && (PastMatch(s.reporter) && PastMatch(next.reporter) ==> next.reporter.ring == s.reporter.ring)
            && (Failing(s.reporter) && next.launched ==> Failing(next.reporter))
            && (Failing(next.reporter) && !Failing(s.reporter) ==>
                  s.reporter.SawLaunched? && s.reporter.kind.Failed? && e == ReporterMoves)
            && (PastMatch(next.reporter) && !PastMatch(s.reporter) ==>
                  && s.reporter.SawLaunched? && e == ReporterMoves && s.masterAddress == s.reporter.ring
                  && next == s.(reporter := Matched(s.reporter.ring, s.reporter.kind)))
            && (e == ReporterMoves && s.reporter.SawLaunched? && s.masterAddress == s.reporter.ring ==>
                  next.reporter == Matched(s.reporter.ring, s.reporter.kind))
  {}

  /** The state before step `i` of a run. */
  ghost function At(max: int, es: seq<Event>, i: nat): Shared
    requires i <= |es|
  {
    Run(max, es[..i])
  }

  lemma AtNext(max: int, es: seq<Event>, i: nat)
    requires i < |es|
    ensures At(max, es, i + 1) == Next(max, At(max, es, i), es[i])
    ensures Inv(max, At(max, es, i))
  {
    assert es[..i + 1][..i] == es[..i];
    CountBounded(max, es[..i]);
  }

  lemma AtEnd(max: int, es: seq<Event>)
    ensures At(max, es, |es|) == Run(max, es) && Inv(max, Run(max, es))
  {
    assert es[..|es|] == es;
    CountBounded(max, es);
  }

  lemma AtShorter(max: int, es: seq<Event>, n: nat, i: nat)
    requires i <= n <= |es|
    ensures At(max, es[..n], i) == At(max, es, i)
  {
    assert es[..n][..i] == es[..i];
  }

  /** A report finds its own name recorded. */
  predicate Matches(s: Shared, e: Event) {
    e == ReporterMoves && s.reporter.SawLaunched? && s.masterAddress == s.reporter.ring
  }

  ghost predicate MatchesAt(max: int, es: seq<Event>, i: int) {
    0 <= i < |es| && Matches(At(max, es, i), es[i])
  }

  /** A getCommand for another hodring than `ring` is between its two writes. */
  predicate InWindow(s: Shared, ring: string) {
    s.asker.SetFlag? && s.asker.ring != ring
  }

  /** A report under way, past its match in step `i`, is about the hodring that holds
      the master, except exactly when it matched while another hodring was between being
      given the master and being recorded. Then it acts on that hodring's master: an
      error takes it away, a success declares it initialized. */
  lemma {:induction false} AstrayExactly(max: int, es: seq<Event>) returns (i: nat)
    requires PastMatch(Run(max, es).reporter)
    ensures MatchesAt(max, es, i)
    ensures var s, at := Run(max, es), At(max, es, i);
            && Holder(s).Some? && Holder(at) == Holder(s) && at.reporter.ring == s.reporter.ring
            && (at.reporter.kind.Failed? <==> Failing(s.reporter))
            && (Holder(s) != Some(s.reporter.ring) <==> InWindow(at, s.reporter.ring))
    decreases |es|
  {
    var n := |es| - 1;
    assert es != [];
    AtNext(max, es, n);
    AtEnd(max, es);
    AtEnd(max, es[..n]);
    AtShorter(max, es, n, n);
    HolderMoves(max, At(max, es, n), es[n]);
    ReportMoves(max, At(max, es, n), es[n]);
    hide Run, Next, Inv, At;
    if PastMatch(At(max, es, n).reporter) {
      i := AstrayExactly(max, es[..n]);
      AtShorter(max, es, n, i);
    } else {
      i := n;
    }
  }

  /** So, in every interleaving: when a hodring loses its master, an error report has
      matched that names it, or one that names the hodring recorded before it, and that
      exactly while its own name was still to be written. */
  lemma LossExactly(max: int, es: seq<Event>, e: Event, ring: string) returns (i: nat)
    requires Holder(Run(max, es)) == Some(ring) && Holder(Next(max, Run(max, es), e)) != Some(ring)
    ensures MatchesAt(max, es, i) && At(max, es, i).reporter.kind.Failed?
    ensures var at := At(max, es, i);
            at.reporter.ring != ring <==> at.asker == SetFlag(ring) && at.masterAddress != ring
  {
    CountBounded(max, es);
    HolderMoves(max, Run(max, es), e);
    hide Run, Next, Inv, At;
    i := AstrayExactly(max, es);
  }

  /** This step takes the decision that costs `ring` its master: an error report finds
      the recorded name to be its own, and it names `ring`, or `ring` is not recorded yet. */
  predicate Blames(s: Shared, e: Event, ring: string) {
    Matches(s, e) && s.reporter.kind.Failed? && (s.reporter.ring == ring || s.asker == SetFlag(ring))
  }

  lemma BlameStep(max: int, s: Shared, e: Event, ring: string)
    requires Inv(max, s) && Holder(s) == Some(ring)
    ensures var next := Next(max, s, e);
            && (!Failing(s.reporter) && !Blames(s, e, ring) ==> Holder(next) == Some(ring) && !Failing(next.reporter))
            && (Blames(s, e, ring) || (Failing(s.reporter) && next.launched) ==> Failing(next.reporter))
  {
    HolderMoves(max, s, e);
    ReportMoves(max, s, e);
    hide Next, Inv;
  }

  ghost predicate HeldFrom(max: int, es: seq<Event>, m: nat, ring: string) {
    forall j | m <= j <= |es| :: Holder(At(max, es, j)) == Some(ring)
  }

  ghost predicate NotBlamedFrom(max: int, es: seq<Event>, m: nat, ring: string) {
    forall i | m <= i < |es| :: !Blames(At(max, es, i), es[i], ring)
  }

  lemma {:induction false} HeldUpTo(max: int, es: seq<Event>, m: nat, ring: string, j: nat)
    requires m <= j <= |es| && NotBlamedFrom(max, es, m, ring)
    requires Holder(At(max, es, m)) == Some(ring) && !Failing(At(max, es, m).reporter)
    ensures Holder(At(max, es, j)) == Some(ring) && !Failing(At(max, es, j).reporter)
    decreases j
  {
    if j > m {
      hide Run, Next, Inv, Holder, Blames, At;
      HeldUpTo(max, es, m, ring, j - 1);
      AtNext(max, es, j - 1);
      BlameStep(max, At(max, es, j - 1), es[j - 1], ring);
    }
  }

  lemma {:induction false} FailsUpTo(max: int, es: seq<Event>, m: nat, ring: string, i: nat, j: nat)
    requires m <= i < j <= |es| && Blames(At(max, es, i), es[i], ring) && HeldFrom(max, es, m, ring)
    ensures Failing(At(max, es, j).reporter)
    decreases j
  {
    hide Run, Next, Inv, Blames, Failing, At;
    assert Holder(At(max, es, j - 1)) == Some(ring) && Holder(At(max, es, j)) == Some(ring);
    if j > i + 1 {
      FailsUpTo(max, es, m, ring, i, j - 1);
    }
    AtNext(max, es, j - 1);
    BlameStep(max, At(max, es, j - 1), es[j - 1], ring);
  }

  /** No error report is past its match when a hodring is given the master. */
  lemma HandoutNotFailing(max: int, es: seq<Event>, e: Event)
    requires Holder(Run(max, es)).None? && Holder(Next(max, Run(max, es), e)).Some?
    ensures !Failing(Next(max, Run(max, es), e).reporter)
  {
    CountBounded(max, es);
  }

  /** From any moment without an error report past its match, so from any handout, whatever
      is under way: a hodring keeps its master, and no error report is about to take it,
      exactly when no error report has matched that names it, or that names the hodring
      recorded before it while it is between the two writes of its getCommand. */
  lemma KeptExactly(max: int, es: seq<Event>, m: nat, ring: string)
    requires m <= |es| && Holder(At(max, es, m)) == Some(ring) && !Failing(At(max, es, m).reporter)
    ensures HeldFrom(max, es, m, ring) && !Failing(Run(max, es).reporter) <==> NotBlamedFrom(max, es, m, ring)
  {
    AtEnd(max, es);
    hide Run, Blames, At, Failing;
    if HeldFrom(max, es, m, ring) && !Failing(Run(max, es).reporter) {
      forall i | m <= i < |es| ensures !Blames(At(max, es, i), es[i], ring) {
        if Blames(At(max, es, i), es[i], ring) {
          FailsUpTo(max, es, m, ring, i, |es|);
        }
      }
    }
    if NotBlamedFrom(max, es, m, ring) {
      forall j | m <= j <= |es| ensures Holder(At(max, es, j)) == Some(ring) {
        HeldUpTo(max, es, m, ring, j);
      }
      HeldUpTo(max, es, m, ring, |es|);
    }
  }

  // ----- runs that go through the window -----

  /** `es` leads to `s` and holds no report about the ring `quiet`. */
  ghost predicate Leads(max: int, es: seq<Event>, s: Shared, quiet: string) {
    Run(max, es) == s && forall e | e in es :: !(e.Report? && e.ring == quiet)
  }

  lemma Then(max: int, es: seq<Event>, s: Shared, quiet: string, e: Event) returns (more: seq<Event>, next: Shared)
    requires Leads(max, es, s, quiet) && !(e.Report? && e.ring == quiet)
    ensures next == Next(max, s, e) && Leads(max, more, next, quiet)
  {
    more, next := es + [e], Next(max, s, e);
    assert more[..|more| - 1] == es;
  }

  /** An uninterrupted getCommand up to, but not including, its last write. */
  lemma AskUpToFlag(max: int, es: seq<Event>, s: Shared, quiet: string, ring: string)
    returns (more: seq<Event>, next: Shared)
    requires Leads(max, es, s, quiet)
    requires s.asker.AskIdle? && s.launchable && !s.launched && s.count <= max
    ensures Leads(max, more, next, quiet) && next == s.(launched := true, asker := SetFlag(ring))
  {
    hide Leads;
    more, next := Then(max, es, s, quiet, Ask(ring));
    more, next := Then(max, more, next, quiet, AskerMoves);
    more, next := Then(max, more, next, quiet, AskerMoves);
    more, next := Then(max, more, next, quiet, AskerMoves);
    more, next := Then(max, more, next, quiet, AskerMoves);
  }

  /** A report from the ring recorded as the master, up to its match. */
  lemma ReportUpToMatch(max: int, es: seq<Event>, s: Shared, quiet: string, ring: string, kind: Kind)
    returns (more: seq<Event>, next: Shared)
    requires Leads(max, es, s, quiet) && ring != quiet
    requires s.reporter.Silent? && s.launched && s.masterAddress == ring
    ensures Leads(max, more, next, quiet) && next == s.(reporter := Matched(ring, kind))
  {
    hide Leads;
    more, next := Then(max, es, s, quiet, Report(ring, kind));
    more, next := Then(max, more, next, quiet, ReporterMoves);
    more, next := Then(max, more, next, quiet, ReporterMoves);
  }

  /** An uninterrupted setHodRingErrors from that ring. */
  lemma Fail(max: int, es: seq<Event>, s: Shared, quiet: string, ring: string)
    returns (more: seq<Event>, next: Shared)
    requires Leads(max, es, s, quiet) && ring != quiet
    requires s.reporter.Silent? && s.launched && s.masterAddress == ring
    ensures Leads(max, more, next, quiet) && next == s.(launched := false, failed := true, count := s.count + 1)
  {
    hide Leads;
    more, next := ReportUpToMatch(max, es, s, quiet, ring, Failed);
    more, next := Then(max, more, next, quiet, ReporterMoves);
    more, next := Then(max, more, next, quiet, ReporterMoves);
    more, next := Then(max, more, next, quiet, ReporterMoves);
    more, next := Then(max, more, next, quiet, ReporterMoves);
  }

  /** "a" had the master and failed; "b" has been given it and is not recorded yet. */
  lemma WindowOpens(max: int) returns (es: seq<Event>, s: Shared)
    requires max >= 1
    ensures Leads(max, es, s, "b")
    ensures s == Shared(true, true, false, "a", true, 1, SetFlag("b"), Silent)
  {
    es, s := [], START;
    assert Leads(max, es, s, "b");
    es, s := Then(max, es, s, "b", Opens);
    es, s := AskUpToFlag(max, es, s, "b", "a");
    es, s := Then(max, es, s, "b", AskerMoves);
    es, s := Fail(max, es, s, "b", "a");
    es, s := AskUpToFlag(max, es, s, "b", "b");
  }

  /** A repeated error report about "a" falls between the two writes of getCommand, and
      "b", whom nobody reported, has lost the master it was given. */
  lemma HandoutLost(max: int) returns (es: seq<Event>)
    requires max >= 1
    ensures var s := Run(max, es);
            s.asker.AskIdle? && s.reporter.Silent? && s.masterAddress == "b" && Holder(s).None?
    ensures forall e | e in es :: !(e.Report? && e.ring == "b")
  {
    var s;
    es, s := WindowOpens(max);
    es, s := Fail(max, es, s, "b", "a");
    es, s := Then(max, es, s, "b", AskerMoves);
  }

  /** A late success report of "a" does more: the service counts as initialized, and its
      failures as over, while "b" holds the master and has reported nothing. */
  lemma SuccessMisplaced(max: int) returns (es: seq<Event>)
    requires max >= 1
    ensures var s := Run(max, es);
            s.asker.AskIdle? && s.reporter.Silent? && s.initialized && s.count == 0 && Holder(s) == Some("b")
    ensures forall e | e in es :: !(e.Report? && e.ring == "b")
  {
    var s;
    es, s := WindowOpens(max);
    es, s := ReportUpToMatch(max, es, s, "b", "a", Accepted);
    es, s := Then(max, es, s, "b", ReporterMoves);
    es, s := Then(max, es, s, "b", ReporterMoves);
    es, s := Then(max, es, s, "b", ReporterMoves);
    es, s := Then(max, es, s, "b", AskerMoves);
  }
}
