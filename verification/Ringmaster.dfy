/** The ringmaster's protocol (hodlib/RingMaster/ringMaster.py with the services of
    hodlib/GridServices): who launches the two masters, what reports do to them and
    which commands hodrings get. Both services are internal. */
module Ringmaster {
  import opened Common
  import opened HodParams

  datatype Kind = Hdfs | MapRed

  /** The state of a MasterSlave service. */
  datatype Service = Service(
    launched: bool,
    initialized: bool,
    masterAddress: string,
    failedMsg: Option<string>,
    failureCount: nat,
    masterAddr: Option<string>,
    infoAddr: Option<string>)

  const FRESH := Service(false, false, "none", None, 0, None, None)

  datatype State = State(hdfs: Service, mapred: Service)

  const INIT := State(FRESH, FRESH)

  /** `hdfsFirst` is the order in which the service dictionary is walked. */
  datatype Config = Config(
    maxFailures: int, workersPerRing: int, version: int, hdfsFirst: bool, format: bool, upgrade: bool)

  datatype Command =
    | NameNode(format: bool, upgrade: bool)
    | JobTracker(fsName: Option<string>)
    | DataNode(id: int, nameNode: string)
    | TaskTracker(id: int, tracker: string, fsName: Option<string>)

  function Of(st: State, k: Kind): Service {
    if k.Hdfs? then st.hdfs else st.mapred
  }

  function With(st: State, k: Kind, s: Service): State {
    if k.Hdfs? then st.(hdfs := s) else st.(mapred := s)
  }

  function Order(cfg: Config): seq<Kind> {
    if cfg.hdfsFirst then [Hdfs, MapRed] else [MapRed, Hdfs]
  }

  // ----- getCommand -----

  predicate Launchable(st: State, k: Kind) {
    k.MapRed? ==> st.hdfs.initialized
  }

  predicate Eligible(cfg: Config, st: State, k: Kind) {
    Launchable(st, k) && !Of(st, k).launched && Of(st, k).failureCount <= cfg.maxFailures
  }

  function MasterCommands(cfg: Config, st: State, k: Kind): (cmds: seq<Command>)
    ensures cmds != []
  {
    match k
    case Hdfs =>
      (if cfg.format then [NameNode(true, false)] else [])
      + [NameNode(false, cfg.upgrade)]
    case MapRed => [JobTracker(st.hdfs.masterAddr)]
  }

  /** The worker commands of a service; None for the missing-address error. */
  function WorkerCommands(cfg: Config, st: State, k: Kind): Option<seq<Command>> {
    if cfg.workersPerRing <= 0 then Some([])
    else if Of(st, k).masterAddr.None? then None
    else Some(seq(cfg.workersPerRing, i requires i >= 0 => WorkerCommand(st, k, i + 1)))
  }

  function WorkerCommand(st: State, k: Kind, id: int): Command
    requires Of(st, k).masterAddr.Some?
  {
    match k
    case Hdfs => DataNode(id, st.hdfs.masterAddr.value)
    case MapRed => TaskTracker(id, st.mapred.masterAddr.value, st.hdfs.masterAddr)
  }

  function Launch(st: State, k: Kind, addr: string): State {
    With(st, k, Of(st, k).(launched := true, masterAddress := addr))
  }

  function FirstEligible(cfg: Config, st: State, ks: seq<Kind>): Option<Kind> {
    if ks == [] then None
    else if Eligible(cfg, st, ks[0]) then Some(ks[0])
    else FirstEligible(cfg, st, ks[1..])
  }

  /** The second loop of getCommand; an error inside it keeps what is in the list. */
  function WorkersFor(cfg: Config, st: State, ks: seq<Kind>, cmds: seq<Command>): seq<Command> {
    if ks == [] then cmds
    else if !Of(st, ks[0]).initialized then []
    else
      var cl := WorkerCommands(cfg, st, ks[0]);
      if cl.None? then cmds else WorkersFor(cfg, st, ks[1..], cmds + cl.value)
  }

  function GetCommand(cfg: Config, st: State, addr: string): (State, seq<Command>) {
    var k := FirstEligible(cfg, st, Order(cfg));
    if k.Some? then (Launch(st, k.value, addr), MasterCommands(cfg, st, k.value))
    else (st, WorkersFor(cfg, st, Order(cfg), []))
  }

  // ----- reports -----

  datatype Updated = Updated(service: Service, ok: bool)

  function AddressKey(k: Kind): string {
    if k.Hdfs? then "fs.default.name" else "mapred.job.tracker"
  }

  function InfoKey(k: Kind, version: int): string {
    match k
    case Hdfs => if version < 16 then "dfs.info.port" else "dfs.http.address"
    case MapRed => if version < 16 then "mapred.job.tracker.info.port" else "mapred.job.tracker.http.address"
  }

  /** setMasterParams: may raise half way, leaving the fields set so far. */
  function SetMasterParams(cfg: Config, s: Service, k: Kind, vals: seq<string>): Updated {
    var dict := ParseEquals(vals);
    if dict.None? || AddressKey(k) !in dict.value then Updated(s, false)
    else
      var address := dict.value[AddressKey(k)];
      var s1 := s.(masterAddr := Some(address));
      if PieceCount(address, ':') != 2 || InfoKey(k, cfg.version) !in dict.value then Updated(s1, false)
      else
        var info := dict.value[InfoKey(k, cfg.version)];
        Updated(s1.(infoAddr := Some(if cfg.version < 16 then Upto(address, ':') + ":" + info else info)), true)
  }

  function SetMasterInitialized(s: Service): Service {
    s.(initialized := true, failureCount := 0, failedMsg := None)
  }

  function SetMasterFailed(s: Service, err: string): Service {
    s.(failureCount := s.failureCount + 1, failedMsg := Some(err), launched := false)
  }

  function AddParams(cfg: Config, st: State, ks: seq<Kind>, addr: string, vals: seq<string>): State
    decreases |ks|
  {
    if ks == [] then st
    else
      var s := Of(st, ks[0]);
      if s.launched && s.masterAddress == addr then
        var u := SetMasterParams(cfg, s, ks[0], vals);
        if u.ok then AddParams(cfg, With(st, ks[0], SetMasterInitialized(u.service)), ks[1..], addr, vals)
        else With(st, ks[0], u.service)
      else AddParams(cfg, st, ks[1..], addr, vals)
  }

  /** The host part of a hodring's id: all before the last '_'. */
  function StripPid(addr: string): string
    decreases |addr|
  {
    if '_' !in addr then addr
    else if addr[|addr| - 1] == '_' then addr[..|addr| - 1]
    else StripPid(addr[..|addr| - 1])
  }

  function FailureText(host: string, errors: string): string {
    "Hodring at " + host + " failed with following errors:\n" + errors
  }

  /** setHodRingErrors. The address compared is the stripped one once a service matched. */
  function AddErrors(st: State, ks: seq<Kind>, addr: string, errors: string): State
    decreases |ks|
  {
    if ks == [] then st
    else
      var s := Of(st, ks[0]);
      if s.launched && s.masterAddress == addr then
        var host := StripPid(addr);
        AddErrors(With(st, ks[0], SetMasterFailed(s, FailureText(host, errors))), ks[1..], host, errors)
      else AddErrors(st, ks[1..], addr, errors)
  }

  predicate GaveUp(cfg: Config, s: Service) {
    s.failedMsg.Some? && s.failureCount > cfg.maxFailures
  }

  function NameOf(k: Kind): string {
    if k.Hdfs? then "hdfs" else "mapred"
  }

  /** getServiceAddr; None stands for Python's None, an address never set. */
  function GetServiceAddr(cfg: Config, st: State, name: string): Option<string> {
    if name != NameOf(Hdfs) && name != NameOf(MapRed) then Some("not found")
    else
      var s := Of(st, if name == NameOf(Hdfs) then Hdfs else MapRed);
      if GaveUp(cfg, s) then Some("Error: " + s.failedMsg.value)
      else if s.initialized then s.masterAddr
      else Some("not found")
  }

  // ----- runs -----

  datatype Rpc =
    | Ask(addr: string)
    | Params(addr: string, vals: seq<string>)
    | Errors(addr: string, errors: string)

  function Step(cfg: Config, st: State, rpc: Rpc): State {
    match rpc
    case Ask(addr) => GetCommand(cfg, st, addr).0
    case Params(addr, vals) => AddParams(cfg, st, Order(cfg), addr, vals)
    case Errors(addr, errors) => AddErrors(st, Order(cfg), addr, errors)
  }

  function Run(cfg: Config, st: State, rpcs: seq<Rpc>): State
    decreases |rpcs|
  {
    if rpcs == [] then st else Step(cfg, Run(cfg, st, rpcs[..|rpcs| - 1]), rpcs[|rpcs| - 1])
  }

  // ----- what every step keeps -----

  ghost predicate ServiceOk(cfg: Config, s: Service) {
    && (s.launched ==> s.failureCount <= cfg.maxFailures)
    && (s.failureCount == 0 || s.failureCount <= cfg.maxFailures + 1)
    && (s.failureCount > 0 <==> s.failedMsg.Some?)
    && (s.initialized ==> s.masterAddr.Some?)
  }

  ghost predicate Inv(cfg: Config, st: State) {
    && ServiceOk(cfg, st.hdfs) && ServiceOk(cfg, st.mapred)
    && (st.mapred.launched || st.mapred.initialized ==> st.hdfs.initialized)
  }

  lemma {:induction false} AddParamsKeeps(cfg: Config, st: State, ks: seq<Kind>, addr: string, vals: seq<string>)
    requires Inv(cfg, st)
    ensures Inv(cfg, AddParams(cfg, st, ks, addr, vals))
    decreases |ks|
  {
    if ks == [] {
    } else {
      var s := Of(st, ks[0]);
      if s.launched && s.masterAddress == addr {
        var u := SetMasterParams(cfg, s, ks[0], vals);
        if u.ok {
          AddParamsKeeps(cfg, With(st, ks[0], SetMasterInitialized(u.service)), ks[1..], addr, vals);
        }
      } else {
        AddParamsKeeps(cfg, st, ks[1..], addr, vals);
      }
    }
  }

  lemma {:induction false} AddErrorsKeeps(cfg: Config, st: State, ks: seq<Kind>, addr: string, errors: string)
    requires Inv(cfg, st)
    ensures Inv(cfg, AddErrors(st, ks, addr, errors))
    decreases |ks|
  {
    if ks == [] {
    } else {
      var s := Of(st, ks[0]);
      if s.launched && s.masterAddress == addr {
        var host := StripPid(addr);
        AddErrorsKeeps(cfg, With(st, ks[0], SetMasterFailed(s, FailureText(host, errors))), ks[1..], host, errors);
      } else {
        AddErrorsKeeps(cfg, st, ks[1..], addr, errors);
      }
    }
  }

  lemma StepKeeps(cfg: Config, st: State, rpc: Rpc)
    requires Inv(cfg, st)
    ensures Inv(cfg, Step(cfg, st, rpc))
  {
    match rpc
    case Ask(addr) => EligibleFound(cfg, st);
    case Params(addr, vals) => AddParamsKeeps(cfg, st, Order(cfg), addr, vals);
    case Errors(addr, errors) => AddErrorsKeeps(cfg, st, Order(cfg), addr, errors);
  }

  lemma EligibleFound(cfg: Config, st: State)
    ensures var k := FirstEligible(cfg, st, Order(cfg));
            && (k.Some? ==> Eligible(cfg, st, k.value))
            && (k.None? ==> !Eligible(cfg, st, Hdfs) && !Eligible(cfg, st, MapRed))
  {
    var ks := Order(cfg);
    assert ks[1..] == [ks[1]] && ks[1..][1..] == [];
    assert FirstEligible(cfg, st, ks[1..]) == if Eligible(cfg, st, ks[1]) then Some(ks[1]) else None;
  }

  /** In every run: a launched master has not failed too often, the failure count
      stays within the limit plus one, failures carry their message, and whatever is
      initialized has an address. */
  lemma {:induction false} RunsKeep(cfg: Config, rpcs: seq<Rpc>)
    ensures Inv(cfg, Run(cfg, INIT, rpcs))
    decreases |rpcs|
  {
    if rpcs == [] {
    } else {
      RunsKeep(cfg, rpcs[..|rpcs| - 1]);
      StepKeeps(cfg, Run(cfg, INIT, rpcs[..|rpcs| - 1]), rpcs[|rpcs| - 1]);
    }
  }

  // ----- giving up is final -----

  lemma {:induction false} ReportsMissUnlaunched(cfg: Config, st: State, ks: seq<Kind>, addr: string,
                                                 vals: seq<string>, errors: string, k: Kind)
    requires !Of(st, k).launched
    ensures Of(AddParams(cfg, st, ks, addr, vals), k) == Of(st, k)
    ensures Of(AddErrors(st, ks, addr, errors), k) == Of(st, k)
    decreases |ks|
  {
    if ks == [] {
    } else {
      var s := Of(st, ks[0]);
      ReportsMissUnlaunched(cfg, st, ks[1..], addr, vals, errors, k);
      if s.launched && s.masterAddress == addr {
        var host := StripPid(addr);
        var u := SetMasterParams(cfg, s, ks[0], vals);
        ReportsMissUnlaunched(cfg, With(st, ks[0], SetMasterInitialized(u.service)), ks[1..], addr, vals, errors, k);
        ReportsMissUnlaunched(cfg, With(st, ks[0], SetMasterFailed(s, FailureText(host, errors))), ks[1..], host,
                              vals, errors, k);
      }
    }
  }

  lemma {:induction false} GaveUpForever(cfg: Config, st: State, k: Kind, rpcs: seq<Rpc>)
    requires Inv(cfg, st) && GaveUp(cfg, Of(st, k))
    ensures Inv(cfg, Run(cfg, st, rpcs)) && Of(Run(cfg, st, rpcs), k) == Of(st, k)
    decreases |rpcs|
  {
    if rpcs == [] {
    } else {
      var before, rpc := Run(cfg, st, rpcs[..|rpcs| - 1]), rpcs[|rpcs| - 1];
      GaveUpForever(cfg, st, k, rpcs[..|rpcs| - 1]);
      StepKeeps(cfg, before, rpc);
      EligibleFound(cfg, before);
      match rpc
      case Ask(_) =>
      case Params(addr, vals) => ReportsMissUnlaunched(cfg, before, Order(cfg), addr, vals, "", k);
      case Errors(addr, errors) => ReportsMissUnlaunched(cfg, before, Order(cfg), addr, [], errors, k);
    }
  }

  /** The answer is an error exactly when the failure count is over the limit, and
      once it is, whatever is called later, the answer stays the same. */
  lemma ErrorAnswerIsFinal(cfg: Config, past: seq<Rpc>, future: seq<Rpc>, k: Kind)
    ensures var st := Run(cfg, INIT, past);
            GaveUp(cfg, Of(st, k)) <==> Of(st, k).failureCount > 0 && Of(st, k).failureCount > cfg.maxFailures
    ensures var st := Run(cfg, INIT, past);
            GaveUp(cfg, Of(st, k)) ==>
              && GetServiceAddr(cfg, st, NameOf(k)) == Some("Error: " + Of(st, k).failedMsg.value)
              && GetServiceAddr(cfg, Run(cfg, st, future), NameOf(k)) == GetServiceAddr(cfg, st, NameOf(k))
  {
    RunsKeep(cfg, past);
    var st := Run(cfg, INIT, past);
    if GaveUp(cfg, Of(st, k)) {
      GaveUpForever(cfg, st, k, future);
    }
  }

  // ----- which commands are handed out -----

  lemma WorkersReady(cfg: Config, st: State, k: Kind)
    requires Of(st, k).initialized ==> Of(st, k).masterAddr.Some?
    ensures Of(st, k).initialized ==>
              && WorkerCommands(cfg, st, k).Some?
              && |WorkerCommands(cfg, st, k).value| == PerRing(cfg)
  {}

  predicate IsWorker(c: Command) {
    c.DataNode? || c.TaskTracker?
  }

  function PerRing(cfg: Config): nat {
    if cfg.workersPerRing <= 0 then 0 else cfg.workersPerRing
  }

  /** The workers of a ring: `workersPerRing` of each service, numbered from 1. */
  ghost predicate WorkersOfBoth(cfg: Config, st: State, cmds: seq<Command>) {
    && st.hdfs.initialized && st.mapred.initialized
    && st.hdfs.masterAddr.Some? && st.mapred.masterAddr.Some?
    && var nodes := seq(PerRing(cfg), i => DataNode(i + 1, st.hdfs.masterAddr.value));
       var trackers := seq(PerRing(cfg), i => TaskTracker(i + 1, st.mapred.masterAddr.value, st.hdfs.masterAddr));
       cmds == if cfg.hdfsFirst then nodes + trackers else trackers + nodes
  }

  lemma WorkersCase(cfg: Config, st: State)
    requires Inv(cfg, st)
    ensures var cmds := WorkersFor(cfg, st, Order(cfg), []);
            if st.hdfs.initialized && st.mapred.initialized then WorkersOfBoth(cfg, st, cmds) else cmds == []
  {
    var ks := Order(cfg);
    assert ks[1..] == [ks[1]] && ks[1..][1..] == [];
    WorkersReady(cfg, st, Hdfs);
    WorkersReady(cfg, st, MapRed);
    if st.hdfs.initialized && st.mapred.initialized {
      var first, second := WorkerCommands(cfg, st, ks[0]).value, WorkerCommands(cfg, st, ks[1]).value;
      assert [] + first == first;
      assert WorkersFor(cfg, st, ks, []) == WorkersFor(cfg, st, ks[1..], first) == first + second;
      assert seq(PerRing(cfg), i => DataNode(i + 1, st.hdfs.masterAddr.value)) == WorkerCommands(cfg, st, Hdfs).value;
      assert seq(PerRing(cfg), i => TaskTracker(i + 1, st.mapred.masterAddr.value, st.hdfs.masterAddr))
          == WorkerCommands(cfg, st, MapRed).value;
    }
  }

  /** What an asking hodring gets, in the fields of the services. A namenode is formatted
      first if formatting is configured, and then started, for an upgrade if so told. */
  ghost predicate Answers(cfg: Config, st: State, addr: string, after: State, cmds: seq<Command>) {
    var namenode := !st.hdfs.launched && st.hdfs.failureCount <= cfg.maxFailures;
    var jobtracker := st.hdfs.initialized && !st.mapred.launched && st.mapred.failureCount <= cfg.maxFailures;
    if namenode && (cfg.hdfsFirst || !jobtracker) then
      && after == st.(hdfs := st.hdfs.(launched := true, masterAddress := addr))
      && cmds == if cfg.format then [NameNode(true, false), NameNode(false, cfg.upgrade)]
                 else [NameNode(false, cfg.upgrade)]
    else if jobtracker then
      && after == st.(mapred := st.mapred.(launched := true, masterAddress := addr))
      && cmds == [JobTracker(st.hdfs.masterAddr)]
    else
      && after == st
      && if st.hdfs.initialized && st.mapred.initialized then WorkersOfBoth(cfg, st, cmds) else cmds == []
  }

  lemma GivesAnswer(cfg: Config, st: State, addr: string)
    requires Inv(cfg, st)
    ensures Answers(cfg, st, addr, GetCommand(cfg, st, addr).0, GetCommand(cfg, st, addr).1)
  {
    EligibleFound(cfg, st);
    WorkersCase(cfg, st);
    hide WorkersOfBoth;
    assert Order(cfg)[1..] == [Order(cfg)[1]];
  }

  /** What a hodring that asks in a reachable state is given. A jobtracker command
      means that the namenode was initialized earlier and its address is known; worker
      commands mean that of both masters, and come as `workersPerRing` per service; the
      error for a missing address does not occur. Whether the master so named is still
      up is another question: `Handouts.AddressLiveExactly`. */
  lemma HandedOut(cfg: Config, past: seq<Rpc>, addr: string)
    ensures var st := Run(cfg, INIT, past);
            var (after, cmds) := GetCommand(cfg, st, addr);
            && Answers(cfg, st, addr, after, cmds)
            && (forall c | c in cmds && c.JobTracker? ::
                  && cmds == [c] && c.fsName == st.hdfs.masterAddr
                  && st.hdfs.initialized && st.hdfs.masterAddr.Some?
                  && Eligible(cfg, st, MapRed) && after == Launch(st, MapRed, addr))
            && (forall c | c in cmds && c.NameNode? :: Eligible(cfg, st, Hdfs) && after == Launch(st, Hdfs, addr))
            && ((exists c :: c in cmds && IsWorker(c)) ==> WorkersOfBoth(cfg, st, cmds) && after == st)
            && (cmds == [] <==>
                  && !Eligible(cfg, st, Hdfs) && !Eligible(cfg, st, MapRed)
                  && !(st.hdfs.initialized && st.mapred.initialized && cfg.workersPerRing > 0))
            && (forall k | Of(st, k).initialized :: WorkerCommands(cfg, st, k).Some?)
  {
    var st := Run(cfg, INIT, past);
    RunsKeep(cfg, past);
    GivesAnswer(cfg, st, addr);
    EligibleFound(cfg, st);
    WorkersCase(cfg, st);
    WorkersReady(cfg, st, Hdfs);
    WorkersReady(cfg, st, MapRed);
    var cmds := GetCommand(cfg, st, addr).1;
    if FirstEligible(cfg, st, Order(cfg)).None? && cmds != [] {
      OnlyWorkers(cfg, st, cmds);
    }
  }

  lemma OnlyWorkers(cfg: Config, st: State, cmds: seq<Command>)
    requires WorkersOfBoth(cfg, st, cmds)
    ensures forall c | c in cmds :: IsWorker(c)
  {
  }

  // ----- who holds a master -----

  ghost predicate HeldBy(st: State, k: Kind, ring: string) {
    Of(st, k).launched && Of(st, k).masterAddress == ring
  }
}
