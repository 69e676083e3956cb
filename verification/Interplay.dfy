/** Both services under their two locks: getCommand walks over the services and gathers
    worker commands while a report walks over them too, field by field. */
module Interplay {
  import opened Common
  import opened Ringmaster
  import opened Handouts
  import Single = Interleaving

  /** Where getCommand stands with the service it offers. */
  datatype Point = Start | SawLaunchable | SawUnlaunched | SawCount | Built | SetFlag

  datatype Walk =
    | Idle
    | Offering(ring: string, ks: seq<Kind>, point: Point, cmds: seq<Command>)
    | Gathering(ring: string, ks: seq<Kind>, id: nat, cmds: seq<Command>, cl: seq<Command>)

  datatype Body = Parameters(vals: seq<string>) | Failure(text: string)

  /** Where a report stands with the service it looks at. */
  datatype Stage =
    | Begin
    | SawLaunched
    | Matched
    | WroteAddr   // masterAddr set, the rest still to be read
    | WroteInfo
    | WroteInit
    | WroteZero
    | ReadCount(count: nat)
    | WroteCount
    | WroteMsg

  datatype Talk = Silent | Telling(name: string, body: Body, ks: seq<Kind>, stage: Stage)

  datatype Both = Both(st: State, walk: Walk, talk: Talk, answers: seq<seq<Command>>)

  const START := Both(INIT, Idle, Silent, [])

  datatype Event = Asks(ring: string) | Reports(name: string, body: Body) | AskerMoves | ReporterMoves

  // ----- getCommand -----

  function Answer(s: Both, cmds: seq<Command>): Both {
    s.(walk := Idle, answers := s.answers + [cmds])
  }

  /** The next service to offer; behind the last, the workers. */
  function Onwards(cfg: Config, s: Both): Both
    requires s.walk.Offering? && s.walk.ks != []
  {
    if |s.walk.ks| == 1 then s.(walk := Gathering(s.walk.ring, Order(cfg), 0, [], []))
    else s.(walk := Offering(s.walk.ring, s.walk.ks[1..], Start, []))
  }

  function Offer(cfg: Config, s: Both): Both
    requires s.walk.Offering? && s.walk.ks != []
  {
    var k := s.walk.ks[0];
    var v := Of(s.st, k);
    match s.walk.point
    case Start => if Launchable(s.st, k) then s.(walk := s.walk.(point := SawLaunchable)) else Onwards(cfg, s)
    case SawLaunchable => if v.launched then Onwards(cfg, s) else s.(walk := s.walk.(point := SawUnlaunched))
    case SawUnlaunched =>
      if v.failureCount <= cfg.maxFailures then s.(walk := s.walk.(point := SawCount)) else Onwards(cfg, s)
    case SawCount => s.(walk := s.walk.(point := Built, cmds := MasterCommands(cfg, s.st, k)))
    case Built => s.(st := With(s.st, k, v.(launched := true)), walk := s.walk.(point := SetFlag))
    case SetFlag => Answer(s.(st := With(s.st, k, v.(masterAddress := s.walk.ring))), s.walk.cmds)
  }

  function Gather(cfg: Config, s: Both): Both
    requires s.walk.Gathering?
  {
    var w := s.walk;
    if w.ks == [] then Answer(s, w.cmds)
    else if w.id == 0 then
      if Of(s.st, w.ks[0]).initialized then s.(walk := w.(id := 1)) else Answer(s, [])
    else if w.id > cfg.workersPerRing then s.(walk := Gathering(w.ring, w.ks[1..], 0, w.cmds + w.cl, []))
    else if Of(s.st, w.ks[0]).masterAddr.None? then Answer(s, w.cmds)
    else s.(walk := w.(id := w.id + 1, cl := w.cl + [WorkerCommand(s.st, w.ks[0], w.id)]))
  }

  // ----- reports -----

  function Past(s: Both, name: string): Both
    requires s.talk.Telling? && s.talk.ks != []
  {
    if |s.talk.ks| == 1 then s.(talk := Silent)
    else s.(talk := Telling(name, s.talk.body, s.talk.ks[1..], Begin))
  }

  function Tell(cfg: Config, s: Both): Both
    requires s.talk.Telling? && s.talk.ks != []
  {
    var t, k := s.talk, s.talk.ks[0];
    var v := Of(s.st, k);
    match t.stage
    case Begin => if v.launched then s.(talk := t.(stage := SawLaunched)) else Past(s, t.name)
    case SawLaunched => if v.masterAddress == t.name then s.(talk := t.(stage := Matched)) else Past(s, t.name)
    case Matched =>
      if t.body.Failure? then s.(talk := t.(stage := ReadCount(v.failureCount)))
      else if !HasAddress(k, t.body.vals) then s.(talk := Silent)
      else s.(st := With(s.st, k, v.(masterAddr := Some(AddressIn(k, t.body.vals)))), talk := t.(stage := WroteAddr))
    case WroteAddr =>
      if t.body.Failure? || !ReportOk(cfg, k, t.body.vals) then s.(talk := Silent)
      else
        var info := SetMasterParams(cfg, v, k, t.body.vals).service.infoAddr;
        s.(st := With(s.st, k, v.(infoAddr := info)), talk := t.(stage := WroteInfo))
    case WroteInfo => s.(st := With(s.st, k, v.(initialized := true)), talk := t.(stage := WroteInit))
    case WroteInit => s.(st := With(s.st, k, v.(failureCount := 0)), talk := t.(stage := WroteZero))
    case WroteZero => Past(s.(st := With(s.st, k, v.(failedMsg := None))), t.name)
    case ReadCount(n) => s.(st := With(s.st, k, v.(failureCount := n + 1)), talk := t.(stage := WroteCount))
    case WroteCount =>
      var text := FailureText(StripPid(t.name), if t.body.Failure? then t.body.text else "");
      s.(st := With(s.st, k, v.(failedMsg := Some(text))), talk := t.(stage := WroteMsg))
    case WroteMsg => Past(s.(st := With(s.st, k, v.(launched := false))), StripPid(t.name))
  }

  // ----- runs -----

  /** The walks are over what is left of the services. */
  ghost predicate Left(cfg: Config, ks: seq<Kind>) {
    ks == Order(cfg) || ks == Order(cfg)[1..]
  }

  ghost predicate Shape(cfg: Config, s: Both) {
    && (s.walk.Offering? ==> Left(cfg, s.walk.ks))
    && (s.walk.Gathering? ==> Left(cfg, s.walk.ks) || s.walk.ks == [])
    && (s.talk.Telling? ==> Left(cfg, s.talk.ks))
    && (s.talk.Telling? ==> StageFits(cfg, s.talk.ks[0], s.talk.body, s.talk.stage))
  }

  ghost predicate StageFits(cfg: Config, k: Kind, body: Body, stage: Stage) {
    match stage
    case WroteAddr => body.Parameters?
    case WroteInfo => body.Parameters? && ReportOk(cfg, k, body.vals)
    case WroteInit => body.Parameters? && ReportOk(cfg, k, body.vals)
    case WroteZero => body.Parameters? && ReportOk(cfg, k, body.vals)
    case ReadCount(_) => body.Failure?
    case WroteCount => body.Failure?
    case WroteMsg => body.Failure?
    case _ => true
  }

  ghost function Next(cfg: Config, s: Both, e: Event): Both
    requires Shape(cfg, s)
  {
    match e
    case Asks(ring) => if s.walk.Idle? then s.(walk := Offering(ring, Order(cfg), Start, [])) else s
    case Reports(name, body) => if s.talk.Silent? then s.(talk := Telling(name, body, Order(cfg), Begin)) else s
    case AskerMoves =>
      if s.walk.Offering? then Offer(cfg, s) else if s.walk.Gathering? then Gather(cfg, s) else s
    case ReporterMoves => if s.talk.Telling? then Tell(cfg, s) else s
  }

  lemma LeftParts(cfg: Config, ks: seq<Kind>)
    requires Left(cfg, ks)
    ensures ks != [] && |ks| <= 2 && (|ks| > 1 ==> Left(cfg, ks[1..]) && ks[1] != ks[0])
  {}

  lemma NextShape(cfg: Config, s: Both, e: Event)
    requires Shape(cfg, s)
    ensures Shape(cfg, Next(cfg, s, e))
  {
    hide ReportOk, HasAddress, AddressIn, SetMasterParams, Left, FailureText, StripPid;
    if s.walk.Offering? || (s.walk.Gathering? && s.walk.ks != []) {
      LeftParts(cfg, s.walk.ks);
    }
    if s.talk.Telling? {
      LeftParts(cfg, s.talk.ks);
    }
    assert Left(cfg, Order(cfg)) by {
      LeftAll(cfg);
    }
  }

  lemma LeftAll(cfg: Config)
    ensures Left(cfg, Order(cfg))
  {}

  ghost function Run(cfg: Config, es: seq<Event>): (s: Both)
    ensures Shape(cfg, s)
    decreases |es|
  {
    if es == [] then START
    else
      var before := Run(cfg, es[..|es| - 1]);
      NextShape(cfg, before, es[|es| - 1]);
      Next(cfg, before, es[|es| - 1])
  }

  // ----- each service by itself -----

  ghost function AskerOf(w: Walk, k: Kind): Single.Asker {
    if !w.Offering? || w.ks == [] || w.ks[0] != k then Single.AskIdle
    else
      match w.point
      case Start => Single.AskStart(w.ring)
      case SawLaunchable => Single.SawLaunchable(w.ring)
      case SawUnlaunched => Single.SawUnlaunched(w.ring)
      case SawCount => Single.SawCount(w.ring)
      case Built => Single.SawCount(w.ring)
      case SetFlag => Single.SetFlag(w.ring)
  }

  ghost function KindOf(cfg: Config, k: Kind, body: Body): Single.Kind {
    if body.Failure? then Single.Failed
    else if ReportOk(cfg, k, body.vals) then Single.Accepted
    else Single.Unreadable
  }

  ghost function ReporterOf(cfg: Config, t: Talk, k: Kind): Single.Reporter {
    if !t.Telling? || t.ks == [] || t.ks[0] != k then Single.Silent
    else
      match t.stage
      case Begin => Single.ReportStart(t.name, KindOf(cfg, k, t.body))
      case SawLaunched => Single.SawLaunched(t.name, KindOf(cfg, k, t.body))
      case Matched => Single.Matched(t.name, KindOf(cfg, k, t.body))
      case WroteAddr => Single.Matched(t.name, KindOf(cfg, k, t.body))
      case WroteInfo => Single.Matched(t.name, KindOf(cfg, k, t.body))
      case WroteInit => Single.WroteInit(t.name)
      case WroteZero => Single.WroteZero(t.name)
      case ReadCount(n) => Single.ReadCount(t.name, n)
      case WroteCount => Single.WroteCount(t.name)
      case WroteMsg => Single.WroteMsg(t.name)
  }

  /** What one service sees of it all. */
  ghost function View(cfg: Config, s: Both, k: Kind): Single.Shared {
    var v := Of(s.st, k);
    Single.Shared(Launchable(s.st, k), v.launched, v.initialized, v.masterAddress, v.failedMsg.Some?, v.failureCount,
                  AskerOf(s.walk, k), ReporterOf(cfg, s.talk, k))
  }

  /** At most one step of the single service. */
  ghost predicate Follows(max: int, before: Single.Shared, after: Single.Shared) {
    after == before || exists e :: after == Single.Next(max, before, e)
  }

  /** The service that is being offered goes its way. */
  ghost predicate OfferMoves(cfg: Config, s: Both)
    requires s.walk.Offering? && s.walk.ks != []
  {
    var k := s.walk.ks[0];
    var before, after := View(cfg, s, k), View(cfg, Offer(cfg, s), k);
    after == before || after == Single.Next(cfg.maxFailures, before, Single.AskerMoves)
  }

  lemma GuardMoves(cfg: Config, s: Both)
    requires s.walk.Offering? && s.walk.ks != [] && (|s.walk.ks| > 1 ==> s.walk.ks[1] != s.walk.ks[0])
    requires s.walk.point.Start? || s.walk.point.SawLaunchable? || s.walk.point.SawUnlaunched?
    ensures OfferMoves(cfg, s)
  {
    hide ReporterOf, Single.MoveReporter;
  }

  lemma LaunchMoves(cfg: Config, s: Both)
    requires s.walk.Offering? && s.walk.ks != []
    requires s.walk.point.SawCount? || s.walk.point.Built? || s.walk.point.SetFlag?
    ensures OfferMoves(cfg, s)
  {
    hide MasterCommands, ReporterOf, Single.MoveReporter;
  }

  lemma OfferOwn(cfg: Config, s: Both)
    requires s.walk.Offering? && s.walk.ks != [] && (|s.walk.ks| > 1 ==> s.walk.ks[1] != s.walk.ks[0])
    ensures OfferMoves(cfg, s)
  {
    hide OfferMoves;
    match s.walk.point
    case SawCount => LaunchMoves(cfg, s);
    case Built => LaunchMoves(cfg, s);
    case SetFlag => LaunchMoves(cfg, s);
    case _ => GuardMoves(cfg, s);
  }

  lemma OfferOther(cfg: Config, s: Both, k: Kind)
    requires s.walk.Offering? && s.walk.ks != [] && k != s.walk.ks[0] && |s.walk.ks| <= 2
    ensures var before, after := View(cfg, s, k), View(cfg, Offer(cfg, s), k);
            after == before || after == Single.Next(cfg.maxFailures, before, Single.Ask(s.walk.ring))
  {
    hide MasterCommands, ReporterOf, Single.MoveReporter, Single.MoveAsker;
  }

  lemma OfferFollows(cfg: Config, s: Both, k: Kind)
    requires Shape(cfg, s) && s.walk.Offering?
    ensures Follows(cfg.maxFailures, View(cfg, s, k), View(cfg, Offer(cfg, s), k))
  {
    LeftParts(cfg, s.walk.ks);
    hide Shape, Left, View, Offer, Single.Next;
    if s.walk.ks[0] == k {
      OfferOwn(cfg, s);
    } else {
      OfferOther(cfg, s, k);
    }
  }

  /** The service the report looks at goes its way. */
  ghost predicate TellMoves(cfg: Config, s: Both)
    requires s.talk.Telling? && s.talk.ks != []
  {
    var k := s.talk.ks[0];
    var before, after := View(cfg, s, k), View(cfg, Tell(cfg, s), k);
    after == before || after == Single.Next(cfg.maxFailures, before, Single.ReporterMoves)
  }

  lemma LooksMoves(cfg: Config, s: Both)
    requires s.talk.Telling? && s.talk.ks != [] && (|s.talk.ks| > 1 ==> s.talk.ks[1] != s.talk.ks[0])
    requires s.talk.stage.Begin? || s.talk.stage.SawLaunched? || s.talk.stage.Matched?
    ensures TellMoves(cfg, s)
  {
    OkHasAddress(cfg, s.talk.ks[0], s.talk.body);
    hide AddressIn, ReportOk, HasAddress, AskerOf, Single.MoveAsker;
  }

  lemma ReadsMoves(cfg: Config, s: Both)
    requires s.talk.Telling? && s.talk.ks != [] && (|s.talk.ks| > 1 ==> s.talk.ks[1] != s.talk.ks[0])
    requires s.talk.stage.WroteAddr? || s.talk.stage.WroteInfo? || s.talk.stage.WroteInit? || s.talk.stage.WroteZero?
    requires StageFits(cfg, s.talk.ks[0], s.talk.body, s.talk.stage)
    ensures TellMoves(cfg, s)
  {
    hide SetMasterParams, ReportOk, HasAddress, AskerOf, Single.MoveAsker;
  }

  lemma FailsMoves(cfg: Config, s: Both)
    requires s.talk.Telling? && s.talk.ks != [] && (|s.talk.ks| > 1 ==> s.talk.ks[1] != s.talk.ks[0])
    requires s.talk.stage.ReadCount? || s.talk.stage.WroteCount? || s.talk.stage.WroteMsg?
    requires StageFits(cfg, s.talk.ks[0], s.talk.body, s.talk.stage)
    ensures TellMoves(cfg, s)
  {
    hide FailureText, StripPid, ReportOk, AskerOf, Single.MoveAsker;
  }

  lemma TellOwn(cfg: Config, s: Both)
    requires s.talk.Telling? && s.talk.ks != [] && (|s.talk.ks| > 1 ==> s.talk.ks[1] != s.talk.ks[0])
    requires StageFits(cfg, s.talk.ks[0], s.talk.body, s.talk.stage)
    ensures TellMoves(cfg, s)
  {
    hide TellMoves, StageFits;
    match s.talk.stage
    case Begin => LooksMoves(cfg, s);
    case SawLaunched => LooksMoves(cfg, s);
    case Matched => LooksMoves(cfg, s);
    case ReadCount(_) => FailsMoves(cfg, s);
    case WroteCount => FailsMoves(cfg, s);
    case WroteMsg => FailsMoves(cfg, s);
    case _ => ReadsMoves(cfg, s);
  }

  /** The other one hears of it when the report comes to it, or when it gets launchable. */
  lemma TellOther(cfg: Config, s: Both, k: Kind)
    requires s.talk.Telling? && s.talk.ks != [] && k != s.talk.ks[0] && |s.talk.ks| <= 2
    ensures var name := if s.talk.stage.WroteMsg? then StripPid(s.talk.name) else s.talk.name;
            var before, after := View(cfg, s, k), View(cfg, Tell(cfg, s), k);
            || after == before || after == Single.Next(cfg.maxFailures, before, Single.Opens)
            || after == Single.Next(cfg.maxFailures, before, Single.Report(name, KindOf(cfg, k, s.talk.body)))
  {
    hide SetMasterParams, AddressIn, FailureText, StripPid, ReportOk, HasAddress, KindOf, AskerOf;
    hide Single.MoveAsker, Single.MoveReporter;
  }

  lemma TellFollows(cfg: Config, s: Both, k: Kind)
    requires Shape(cfg, s) && s.talk.Telling?
    ensures Follows(cfg.maxFailures, View(cfg, s, k), View(cfg, Tell(cfg, s), k))
  {
    LeftParts(cfg, s.talk.ks);
    hide Shape, Left, View, Tell, Single.Next, StripPid, KindOf, StageFits;
    if s.talk.ks[0] == k {
      TellOwn(cfg, s);
    } else {
      TellOther(cfg, s, k);
    }
  }

  lemma OkHasAddress(cfg: Config, k: Kind, body: Body)
    ensures body.Parameters? && ReportOk(cfg, k, body.vals) ==> HasAddress(k, body.vals)
  {}

  lemma NextFollows(cfg: Config, s: Both, e: Event, k: Kind)
    requires Shape(cfg, s)
    ensures Follows(cfg.maxFailures, View(cfg, s, k), View(cfg, Next(cfg, s, e), k))
  {
    match e
    case Asks(ring) =>
      assert Single.Next(cfg.maxFailures, View(cfg, s, k), Single.Ask(ring)) == View(cfg, Next(cfg, s, e), k)
             || View(cfg, Next(cfg, s, e), k) == View(cfg, s, k);
    case Reports(name, body) =>
      assert Single.Next(cfg.maxFailures, View(cfg, s, k), Single.Report(name, KindOf(cfg, k, body)))
             == View(cfg, Next(cfg, s, e), k) || View(cfg, Next(cfg, s, e), k) == View(cfg, s, k);
    case AskerMoves =>
      if s.walk.Offering? {
        OfferFollows(cfg, s, k);
      }
    case ReporterMoves =>
      if s.talk.Telling? {
        TellFollows(cfg, s, k);
      }
  }

  /** However the two services are walked over, each goes through a run of the single
      service, so all that holds of its runs holds of both. */
  lemma {:induction false} EachIsSingle(cfg: Config, es: seq<Event>, k: Kind) returns (one: seq<Single.Event>)
    ensures Single.Run(cfg.maxFailures, one) == View(cfg, Run(cfg, es), k)
    decreases |es|
  {
    if es == [] {
      one := [];
      if k.Hdfs? {
        one := [Single.Opens];
        assert one[..0] == [];
      }
    } else {
      var n := |es| - 1;
      one := EachIsSingle(cfg, es[..n], k);
      NextFollows(cfg, Run(cfg, es[..n]), es[n], k);
      var before, after := View(cfg, Run(cfg, es[..n]), k), View(cfg, Run(cfg, es), k);
      if after != before {
        var e :| after == Single.Next(cfg.maxFailures, before, e);
        assert (one + [e])[..|one|] == one;
        one := one + [e];
      }
    }
  }

  /** So the failure count of either service stays within the limit plus one, and within
      the limit while its master is launched and no report is at work on it. */
  lemma BothCountsBounded(cfg: Config, es: seq<Event>, k: Kind)
    ensures var s := Run(cfg, es);
            var v := Of(s.st, k);
            && (v.failureCount == 0 || v.failureCount <= cfg.maxFailures + 1)
            && (v.launched && ReporterOf(cfg, s.talk, k).Silent? ==> v.failureCount <= cfg.maxFailures)
  {
    var one := EachIsSingle(cfg, es, k);
    Single.CountBounded(cfg.maxFailures, one);
  }

  // ----- commands carry known addresses -----

  predicate Addressed(c: Command) {
    match c
    case JobTracker(fsName) => fsName.Some?
    case TaskTracker(_, _, fsName) => fsName.Some?
    case _ => true
  }

  ghost predicate AllAddressed(cmds: seq<Command>) {
    forall i | 0 <= i < |cmds| :: Addressed(cmds[i])
  }

  ghost predicate ServicesKnown(st: State) {
    && (st.hdfs.initialized ==> st.hdfs.masterAddr.Some?) && (st.mapred.initialized ==> st.mapred.masterAddr.Some?)
    && (st.mapred.launched || st.mapred.initialized ==> st.hdfs.initialized)
  }

  ghost predicate WalkKnown(st: State, w: Walk) {
    match w
    case Idle => true
    case Offering(_, ks, point, cmds) =>
      ks != [] && (point != Start ==> Launchable(st, ks[0])) && AllAddressed(cmds)
    case Gathering(_, ks, id, cmds, cl) =>
      (id > 0 && ks != [] ==> Of(st, ks[0]).initialized) && AllAddressed(cmds) && AllAddressed(cl)
  }

  /** The address is written before the service counts as initialized. */
  ghost predicate TalkKnown(st: State, t: Talk) {
    t.Telling? ==>
      && t.ks != []
      && (t.stage.WroteAddr? || t.stage.WroteInfo? ==> Of(st, t.ks[0]).masterAddr.Some?)
      && (!t.stage.Begin? ==> Launchable(st, t.ks[0]))
  }

  ghost predicate Known(s: Both) {
    && ServicesKnown(s.st) && WalkKnown(s.st, s.walk) && TalkKnown(s.st, s.talk)
    && forall i | 0 <= i < |s.answers| :: AllAddressed(s.answers[i])
  }

  /** What is known stays known. */
  ghost predicate Grows(st: State, next: State) {
    forall k: Kind :: && (Of(st, k).initialized ==> Of(next, k).initialized)
                      && (Of(st, k).masterAddr.Some? ==> Of(next, k).masterAddr.Some?)
  }

  lemma StaysKnown(st: State, next: State, w: Walk, t: Talk)
    requires Grows(st, next)
    ensures WalkKnown(st, w) ==> WalkKnown(next, w)
    ensures TalkKnown(st, t) ==> TalkKnown(next, t)
    ensures forall k | Launchable(st, k) :: Launchable(next, k)
  {
    assert st.hdfs.initialized ==> next.hdfs.initialized by {
      assert Of(st, Hdfs).initialized ==> Of(next, Hdfs).initialized;
    }
  }

  lemma OfferKnown(cfg: Config, s: Both)
    requires Shape(cfg, s) && Known(s) && s.walk.Offering?
    ensures Known(Offer(cfg, s))
  {
    var next := Offer(cfg, s);
    LeftParts(cfg, s.walk.ks);
    NoneAddressed();
    MastersAddressed(cfg, s.st, s.walk.ks[0]);
    hide Shape, AllAddressed, MasterCommands;
    assert Grows(s.st, next.st);
    StaysKnown(s.st, next.st, s.walk, s.talk);
    hide TalkKnown;
    assert ServicesKnown(next.st);
    assert WalkKnown(next.st, next.walk);
  }

  lemma NoneAddressed()
    ensures AllAddressed([])
  {}

  lemma MastersAddressed(cfg: Config, st: State, k: Kind)
    requires ServicesKnown(st)
    ensures Launchable(st, k) ==> AllAddressed(MasterCommands(cfg, st, k))
  {}

  lemma GatherKnown(cfg: Config, s: Both)
    requires Known(s) && s.walk.Gathering?
    ensures Known(Gather(cfg, s))
  {
    NoneAddressed();
  }

  lemma TellKnown(cfg: Config, s: Both)
    requires Shape(cfg, s) && Known(s) && s.talk.Telling?
    ensures Known(Tell(cfg, s))
  {
    LeftParts(cfg, s.talk.ks);
    TellServices(cfg, s);
    TellGrows(cfg, s);
    var next := Tell(cfg, s);
    StaysKnown(s.st, next.st, s.walk, s.talk);
    TellStaysKnown(cfg, s);
    hide Shape, AllAddressed, WalkKnown, TalkKnown, ServicesKnown;
    SameRest(cfg, s);
  }

  lemma SameRest(cfg: Config, s: Both)
    requires s.talk.Telling? && s.talk.ks != []
    ensures Tell(cfg, s).walk == s.walk && Tell(cfg, s).answers == s.answers
  {}

  lemma TellServices(cfg: Config, s: Both)
    requires s.talk.Telling? && s.talk.ks != [] && ServicesKnown(s.st) && TalkKnown(s.st, s.talk)
    ensures ServicesKnown(Tell(cfg, s).st)
  {
    hide ReportOk, HasAddress, AddressIn, SetMasterParams, FailureText, StripPid;
  }

  lemma TellGrows(cfg: Config, s: Both)
    requires s.talk.Telling? && s.talk.ks != []
    ensures Grows(s.st, Tell(cfg, s).st)
  {
    hide ReportOk, HasAddress, AddressIn, SetMasterParams, FailureText, StripPid;
  }

  lemma TellStaysKnown(cfg: Config, s: Both)
    requires s.talk.Telling? && s.talk.ks != [] && ServicesKnown(s.st) && TalkKnown(s.st, s.talk)
    ensures TalkKnown(Tell(cfg, s).st, Tell(cfg, s).talk)
  {
    hide ReportOk, HasAddress, AddressIn, SetMasterParams, FailureText, StripPid;
  }

  /** In every interleaving of getCommand and the reports over both services: every
      jobtracker and worker command answered carries a known address, and gathering worker
      commands never comes upon a missing one. */
  lemma {:induction false} KnownAddresses(cfg: Config, es: seq<Event>)
    ensures var s := Run(cfg, es);
            && Known(s)
            && (forall cmds, c | cmds in s.answers && c in cmds :: Addressed(c))
            && (s.walk.Gathering? && s.walk.id > 0 && s.walk.ks != [] ==> Of(s.st, s.walk.ks[0]).masterAddr.Some?)
    decreases |es|
  {
    if es == [] {
      assert Run(cfg, es) == START;
    } else {
      var n := |es| - 1;
      var before := Run(cfg, es[..n]);
      KnownAddresses(cfg, es[..n]);
      assert Run(cfg, es) == Next(cfg, before, es[n]);
      NextKnown(cfg, before, es[n]);
    }
  }

  lemma NextKnown(cfg: Config, s: Both, e: Event)
    requires Shape(cfg, s) && Known(s)
    ensures Known(Next(cfg, s, e))
  {
    NoneAddressed();
    if e.AskerMoves? && s.walk.Offering? {
      OfferKnown(cfg, s);
    } else if e.AskerMoves? && s.walk.Gathering? {
      GatherKnown(cfg, s);
    } else if e.ReporterMoves? && s.talk.Telling? {
      TellKnown(cfg, s);
    }
  }
}
