/** Who holds a master and whose addresses are given away, over all runs of the
    ringmaster's requests: which services a report changes, how long a master stays
    with its hodring, and when an address is that of a master still up. */
module Handouts {
  import opened Common
  import opened HodParams
  import opened Ringmaster

  function First(cfg: Config): Kind {
    if cfg.hdfsFirst then Hdfs else MapRed
  }

  function Second(cfg: Config): Kind {
    if cfg.hdfsFirst then MapRed else Hdfs
  }

  lemma InOrder(cfg: Config)
    ensures var ks := Order(cfg); ks == [First(cfg), Second(cfg)] && ks[1..] == [Second(cfg)] && ks[1..][1..] == []
  {}

  // ----- which services an error report fails -----

  /** The name that service `k` is compared with: the pid is stripped once a service
      earlier in the walk has matched. */
  ghost function Compared(cfg: Config, st: State, addr: string, k: Kind): string {
    if k == Second(cfg) && HeldBy(st, First(cfg), addr) then StripPid(addr) else addr
  }

  ghost predicate Blames(cfg: Config, st: State, addr: string, k: Kind) {
    HeldBy(st, k, Compared(cfg, st, addr, k))
  }

  /** For every state, order and report: exactly the blamed services fail. */
  lemma ErrorsExactly(cfg: Config, st: State, addr: string, errors: string, k: Kind)
    ensures Of(AddErrors(st, Order(cfg), addr, errors), k)
         == if Blames(cfg, st, addr, k)
            then SetMasterFailed(Of(st, k), FailureText(StripPid(Compared(cfg, st, addr, k)), errors))
            else Of(st, k)
  {
    hide StripPid, FailureText;
    InOrder(cfg);
    var ks, s, host := Order(cfg), Of(st, First(cfg)), StripPid(addr);
    var mid := if HeldBy(st, First(cfg), addr) then With(st, First(cfg), SetMasterFailed(s, FailureText(host, errors)))
               else st;
    var name := Compared(cfg, st, addr, Second(cfg));
    assert AddErrors(st, ks, addr, errors) == AddErrors(mid, [Second(cfg)], name, errors);
    ErrorsForOne(mid, Second(cfg), name, errors);
  }

  lemma ErrorsForOne(st: State, k: Kind, name: string, errors: string)
    ensures AddErrors(st, [k], name, errors)
         == if !HeldBy(st, k, name) then st
            else With(st, k, SetMasterFailed(Of(st, k), FailureText(StripPid(name), errors)))
  {
    hide StripPid, FailureText;
    assert [k][1..] == [];
  }

  lemma {:induction false} StripShortens(addr: string)
    ensures StripPid(addr) == addr <==> '_' !in addr
    ensures '_' in addr ==> |StripPid(addr)| < |addr|
    decreases |addr|
  {
    if '_' in addr && addr[|addr| - 1] != '_' {
      StripShortens(addr[..|addr| - 1]);
    }
  }

  ghost predicate FailedNow(st: State, after: State, k: Kind) {
    Of(after, k).failureCount == Of(st, k).failureCount + 1 && !Of(after, k).launched
  }

  /** A report fails the services its hodring holds and no others, except when its name
      has a pid to strip and the first service in the walk is its own: then the second
      is spared if it is its own too, and hit if its hodring is named like the host. */
  lemma FailsItsOwnExactly(cfg: Config, st: State, addr: string, errors: string)
    ensures var after := Step(cfg, st, Errors(addr, errors));
            (forall k :: FailedNow(st, after, k) <==> HeldBy(st, k, addr))
            <==> !(&& '_' in addr && HeldBy(st, First(cfg), addr)
                   && (HeldBy(st, Second(cfg), addr) || HeldBy(st, Second(cfg), StripPid(addr))))
  {
    hide AddErrors, FailureText, StripPid;
    var after := Step(cfg, st, Errors(addr, errors));
    forall k ensures FailedNow(st, after, k) <==> Blames(cfg, st, addr, k) {
      ErrorsExactly(cfg, st, addr, errors, k);
    }
    StripShortens(addr);
    assert FailedNow(st, after, Second(cfg)) <==> Blames(cfg, st, addr, Second(cfg));
    assert FailedNow(st, after, First(cfg)) <==> HeldBy(st, First(cfg), addr);
    assert FailedNow(st, after, Hdfs) <==> Blames(cfg, st, addr, Hdfs);
    assert FailedNow(st, after, MapRed) <==> Blames(cfg, st, addr, MapRed);
  }

  // ----- which services a report of parameters changes -----

  /** The report names the service's address and everything else asked for. */
  predicate ReportOk(cfg: Config, k: Kind, vals: seq<string>) {
    && HasAddress(k, vals) && PieceCount(AddressIn(k, vals), ':') == 2
    && InfoKey(k, cfg.version) in ParseEquals(vals).value
  }

  predicate HasAddress(k: Kind, vals: seq<string>) {
    ParseEquals(vals).Some? && AddressKey(k) in ParseEquals(vals).value
  }

  function AddressIn(k: Kind, vals: seq<string>): string
    requires HasAddress(k, vals)
  {
    ParseEquals(vals).value[AddressKey(k)]
  }

  /** The walk gets to service `k`, which the reporting hodring holds. */
  ghost predicate Reached(cfg: Config, st: State, addr: string, vals: seq<string>, k: Kind) {
    && HeldBy(st, k, addr)
    && (k == Second(cfg) && HeldBy(st, First(cfg), addr) ==> ReportOk(cfg, First(cfg), vals))
  }

  lemma ParamsExactly(cfg: Config, st: State, addr: string, vals: seq<string>, k: Kind)
    ensures var s := Of(st, k);
            var u := SetMasterParams(cfg, s, k, vals);
            && u.ok == ReportOk(cfg, k, vals)
            && (HasAddress(k, vals) ==> u.service.masterAddr == Some(AddressIn(k, vals)))
            && (!HasAddress(k, vals) ==> u.service == s)
            && u.service == s.(masterAddr := u.service.masterAddr, infoAddr := u.service.infoAddr)
            && Of(AddParams(cfg, st, Order(cfg), addr, vals), k)
               == if !Reached(cfg, st, addr, vals, k) then s
                  else if u.ok then SetMasterInitialized(u.service)
                  else u.service
  {
    hide ParseEquals, PieceCount, Upto;
    InOrder(cfg);
    var ks, s := Order(cfg), Of(st, First(cfg));
    var u := SetMasterParams(cfg, s, First(cfg), vals);
    var mid := if HeldBy(st, First(cfg), addr) then With(st, First(cfg), SetMasterInitialized(u.service)) else st;
    if HeldBy(st, First(cfg), addr) && !u.ok {
      assert AddParams(cfg, st, ks, addr, vals) == With(st, First(cfg), u.service);
    } else {
      assert AddParams(cfg, st, ks, addr, vals) == AddParams(cfg, mid, [Second(cfg)], addr, vals);
      ParamsForOne(cfg, mid, Second(cfg), addr, vals);
    }
  }

  /** The report says `v` for `key`, and all of it can be read. */
  ghost predicate Says(vals: seq<string>, key: string, v: string) {
    (forall i | 0 <= i < |vals| :: '=' in vals[i]) && LastFor(vals, key, v)
  }

  lemma SaysExactly(vals: seq<string>, key: string)
    ensures var dict := ParseEquals(vals);
            forall v :: Says(vals, key, v) <==> dict.Some? && key in dict.value && dict.value[key] == v
  {
    hide ParseEquals, LastFor;
    ParseEqualsExactly(vals);
  }

  /** The keys under which a master gives its address and where its information is. */
  ghost predicate KeysOf(k: Kind, version: int, key: string, infoKey: string) {
    match k
    case Hdfs =>
      && key == "fs.default.name"
      && infoKey == if version < 16 then "dfs.info.port" else "dfs.http.address"
    case MapRed =>
      && key == "mapred.job.tracker"
      && infoKey == if version < 16 then "mapred.job.tracker.info.port" else "mapred.job.tracker.http.address"
  }

  lemma TheKeys(k: Kind, version: int, key: string, infoKey: string)
    ensures KeysOf(k, version, key, infoKey) <==> key == AddressKey(k) && infoKey == InfoKey(k, version)
  {}

  /** A report is taken over by a service exactly when it gives, under that service's
      keys, an address of a host and a port and where the information is; before version
      16 of Hadoop that was a port of the same host. An address alone is taken over all
      the same. */
  lemma ReportRead(cfg: Config, s: Service, k: Kind, key: string, infoKey: string, vals: seq<string>,
                   host: string, port: string, info: string)
    requires KeysOf(k, cfg.version, key, infoKey) && ':' !in host
    ensures var u := SetMasterParams(cfg, s, k, vals);
            && (Says(vals, key, host + ":" + port) && Says(vals, infoKey, info) ==>
                  && (u.ok <==> ':' !in port)
                  && (u.ok ==> u.service == s.(
                        masterAddr := Some(host + ":" + port),
                        infoAddr := Some(if cfg.version < 16 then host + ":" + info else info))))
            && (forall v | Says(vals, key, v) ::
                  && u.service.masterAddr == Some(v)
                  && (u.ok ==> exists h, p :: ':' !in h && ':' !in p && v == h + ":" + p)
                  && (u.ok ==> exists i :: Says(vals, infoKey, i)))
            && ((forall v :: !Says(vals, key, v)) ==> !u.ok && u.service == s)
            && (u.ok <==> ReportOk(cfg, k, vals))
  {
    hide ParseEquals, LastFor, PieceCount, Upto, Says, KeysOf, AddressKey, InfoKey;
    TheKeys(k, cfg.version, key, infoKey);
    SaysExactly(vals, key);
    SaysExactly(vals, infoKey);
    TwoPieces(host + ":" + port, ':');
    PiecesOf(host, port);
    var dict := ParseEquals(vals);
    if dict.Some? && key in dict.value {
      TwoPieces(dict.value[key], ':');
      assert Says(vals, key, dict.value[key]);
    }
    if dict.Some? && infoKey in dict.value {
      assert Says(vals, infoKey, dict.value[infoKey]);
    }
  }

  lemma PiecesOf(host: string, port: string)
    requires ':' !in host
    ensures PieceCount(host + ":" + port, ':') == 2 <==> ':' !in port
  {
    var s := host + [':'] + port;
    PiecesCounted(s, ':');
    AroundCut(host, port, ':');
    assert multiset(port)[':'] == 0 <==> ':' !in port;
  }

  lemma ParamsForOne(cfg: Config, st: State, k: Kind, addr: string, vals: seq<string>)
    ensures var u := SetMasterParams(cfg, Of(st, k), k, vals);
            AddParams(cfg, st, [k], addr, vals)
            == if !HeldBy(st, k, addr) then st
               else With(st, k, if u.ok then SetMasterInitialized(u.service) else u.service)
  {
    hide SetMasterParams;
    assert [k][1..] == [];
  }

  // ----- a master stays with its hodring -----

  ghost predicate Fails(cfg: Config, st: State, rpc: Rpc, k: Kind) {
    rpc.Errors? && Blames(cfg, st, rpc.addr, k)
  }

  ghost predicate Accepts(cfg: Config, st: State, rpc: Rpc, k: Kind) {
    rpc.Params? && Reached(cfg, st, rpc.addr, rpc.vals, k) && ReportOk(cfg, k, rpc.vals)
  }

  /** What one request does to a service, as far as its flags and its count go. */
  lemma StepExactly(cfg: Config, st: State, rpc: Rpc, k: Kind)
    ensures var s, t := Of(st, k), Of(Step(cfg, st, rpc), k);
            && (Accepts(cfg, st, rpc, k) ==> t.initialized && t.failureCount == 0 && HeldBy(st, k, rpc.addr))
            && (Fails(cfg, st, rpc, k) ==> t.failureCount > 0 && !t.launched)
            && (!Accepts(cfg, st, rpc, k) && !Fails(cfg, st, rpc, k) ==>
                  t.initialized == s.initialized && t.failureCount == s.failureCount)
            && (!Fails(cfg, st, rpc, k) && s.launched ==> t.launched && t.masterAddress == s.masterAddress)
  {
    hide AddErrors, AddParams, SetMasterParams, StripPid, FailureText;
    match rpc
    case Ask(_) => EligibleFound(cfg, st);
    case Params(addr, vals) => ParamsExactly(cfg, st, addr, vals, k);
    case Errors(addr, errors) => ErrorsExactly(cfg, st, addr, errors, k);
  }

  lemma PrefixRun(cfg: Config, st: State, rpcs: seq<Rpc>, i: nat)
    requires i < |rpcs|
    ensures Run(cfg, st, rpcs[..i + 1]) == Step(cfg, Run(cfg, st, rpcs[..i]), rpcs[i])
  {
    assert rpcs[..i + 1][..i] == rpcs[..i];
  }

  ghost predicate HeldThroughout(cfg: Config, st: State, k: Kind, ring: string, rpcs: seq<Rpc>) {
    forall i | 0 <= i <= |rpcs| :: HeldBy(Run(cfg, st, rpcs[..i]), k, ring)
  }

  ghost predicate NeverBlamed(cfg: Config, st: State, k: Kind, rpcs: seq<Rpc>) {
    forall i | 0 <= i < |rpcs| :: !Fails(cfg, Run(cfg, st, rpcs[..i]), rpcs[i], k)
  }

  lemma {:induction false} HeldUpTo(cfg: Config, st: State, k: Kind, ring: string, rpcs: seq<Rpc>, i: nat)
    requires i <= |rpcs| && HeldBy(st, k, ring) && NeverBlamed(cfg, st, k, rpcs)
    ensures HeldBy(Run(cfg, st, rpcs[..i]), k, ring)
  {
    if i > 0 {
      HeldUpTo(cfg, st, k, ring, rpcs, i - 1);
      PrefixRun(cfg, st, rpcs, i - 1);
      StepExactly(cfg, Run(cfg, st, rpcs[..i - 1]), rpcs[i - 1], k);
    }
  }

  /** From the moment a hodring is given a master, whatever is called, the service stays
      launched and with that hodring exactly until a report blames it. */
  lemma HandoutSticks(cfg: Config, st: State, k: Kind, ring: string, rpcs: seq<Rpc>)
    requires HeldBy(st, k, ring)
    ensures HeldThroughout(cfg, st, k, ring, rpcs) <==> NeverBlamed(cfg, st, k, rpcs)
  {
    hide Run, Step, Fails;
    if HeldThroughout(cfg, st, k, ring, rpcs) {
      forall i | 0 <= i < |rpcs| ensures !Fails(cfg, Run(cfg, st, rpcs[..i]), rpcs[i], k) {
        assert HeldBy(Run(cfg, st, rpcs[..i + 1]), k, ring);
        PrefixRun(cfg, st, rpcs, i);
        StepExactly(cfg, Run(cfg, st, rpcs[..i]), rpcs[i], k);
      }
    }
    if NeverBlamed(cfg, st, k, rpcs) {
      forall i | 0 <= i <= |rpcs| ensures HeldBy(Run(cfg, st, rpcs[..i]), k, ring) {
        HeldUpTo(cfg, st, k, ring, rpcs, i);
      }
    }
  }

  // ----- addresses of masters that are up -----

  /** Request `i` of the run is a report the service accepted, and no report has failed
      it since. */
  ghost predicate UpSince(cfg: Config, rpcs: seq<Rpc>, i: int, k: Kind) {
    && 0 <= i < |rpcs| && Accepts(cfg, Run(cfg, INIT, rpcs[..i]), rpcs[i], k)
    && forall j | i < j < |rpcs| :: !Fails(cfg, Run(cfg, INIT, rpcs[..j]), rpcs[j], k)
  }

  ghost predicate Live(cfg: Config, rpcs: seq<Rpc>, k: Kind) {
    exists i :: UpSince(cfg, rpcs, i, k)
  }

  lemma UpSinceStep(cfg: Config, rpcs: seq<Rpc>, i: int, k: Kind)
    requires rpcs != []
    ensures var n := |rpcs| - 1;
            var before := Run(cfg, INIT, rpcs[..n]);
            UpSince(cfg, rpcs, i, k)
            <==> if i == n then Accepts(cfg, before, rpcs[n], k)
                 else UpSince(cfg, rpcs[..n], i, k) && !Fails(cfg, before, rpcs[n], k)
  {
    hide Run, Accepts, Fails;
    var n := |rpcs| - 1;
    assert forall j | 0 <= j < n :: rpcs[..n][..j] == rpcs[..j] && rpcs[..n][j] == rpcs[j];
    if 0 <= i < n && UpSince(cfg, rpcs, i, k) {
      forall j | i < j < n ensures !Fails(cfg, Run(cfg, INIT, rpcs[..n][..j]), rpcs[..n][j], k) {
        assert rpcs[..n][..j] == rpcs[..j];
      }
    }
    if 0 <= i < n && UpSince(cfg, rpcs[..n], i, k) && !Fails(cfg, Run(cfg, INIT, rpcs[..n]), rpcs[n], k) {
      forall j | i < j < |rpcs| ensures !Fails(cfg, Run(cfg, INIT, rpcs[..j]), rpcs[j], k) {
        if j < n {
          assert !Fails(cfg, Run(cfg, INIT, rpcs[..n][..j]), rpcs[..n][j], k);
        }
      }
    }
  }

  /** A service whose last accepted report no failure has followed is known by two of
      its fields; its master is then launched, on the hodring that sent the report. */
  lemma {:induction false} LiveExactly(cfg: Config, rpcs: seq<Rpc>, k: Kind)
    ensures var s := Of(Run(cfg, INIT, rpcs), k); Live(cfg, rpcs, k) <==> s.initialized && s.failureCount == 0
    ensures forall i | UpSince(cfg, rpcs, i, k) :: HeldBy(Run(cfg, INIT, rpcs), k, rpcs[i].addr)
    decreases |rpcs|
  {
    if rpcs == [] {
    } else {
      var n := |rpcs| - 1;
      var before := Run(cfg, INIT, rpcs[..n]);
      LiveExactly(cfg, rpcs[..n], k);
      StepExactly(cfg, before, rpcs[n], k);
      assert Run(cfg, INIT, rpcs) == Step(cfg, before, rpcs[n]);
      hide Run, Step, Accepts, Fails, UpSince;
      AcceptsNoFailure(cfg, before, rpcs[n], k);
      forall i | UpSince(cfg, rpcs, i, k) ensures HeldBy(Run(cfg, INIT, rpcs), k, rpcs[i].addr) {
        UpSinceStep(cfg, rpcs, i, k);
        UpSinceRange(cfg, rpcs[..n], i, k);
      }
      UpSinceStep(cfg, rpcs, n, k);
      if Live(cfg, rpcs, k) {
        var i :| UpSince(cfg, rpcs, i, k);
        UpSinceStep(cfg, rpcs, i, k);
      }
      if Live(cfg, rpcs[..n], k) && !Fails(cfg, before, rpcs[n], k) {
        var i :| UpSince(cfg, rpcs[..n], i, k);
        UpSinceStep(cfg, rpcs, i, k);
        UpSinceRange(cfg, rpcs[..n], i, k);
      }
    }
  }

  lemma AcceptsNoFailure(cfg: Config, st: State, rpc: Rpc, k: Kind)
    ensures !(Accepts(cfg, st, rpc, k) && Fails(cfg, st, rpc, k))
  {}

  lemma UpSinceRange(cfg: Config, rpcs: seq<Rpc>, i: int, k: Kind)
    ensures UpSince(cfg, rpcs, i, k) ==> 0 <= i < |rpcs|
  {}

  /** The address in use comes from request `i`, the last that wrote one. A report that
      cannot be read to its end has written its address before that shows. */
  ghost predicate LastWritten(cfg: Config, rpcs: seq<Rpc>, i: int, k: Kind) {
    && 0 <= i < |rpcs| && Writes(cfg, Run(cfg, INIT, rpcs[..i]), rpcs[i], k)
    && NeverWritten(cfg, rpcs, i + 1, k)
  }

  ghost predicate Writes(cfg: Config, st: State, rpc: Rpc, k: Kind) {
    rpc.Params? && Reached(cfg, st, rpc.addr, rpc.vals, k) && HasAddress(k, rpc.vals)
  }

  ghost predicate NeverWritten(cfg: Config, rpcs: seq<Rpc>, from: nat, k: Kind) {
    forall j | from <= j < |rpcs| :: !Writes(cfg, Run(cfg, INIT, rpcs[..j]), rpcs[j], k)
  }

  lemma NotWrittenNow(cfg: Config, rpcs: seq<Rpc>, from: nat, k: Kind)
    requires rpcs != [] && from < |rpcs|
    requires NeverWritten(cfg, rpcs[..|rpcs| - 1], from, k)
    requires !Writes(cfg, Run(cfg, INIT, rpcs[..|rpcs| - 1]), rpcs[|rpcs| - 1], k)
    ensures NeverWritten(cfg, rpcs, from, k)
  {
    hide Run, Writes;
    var n := |rpcs| - 1;
    forall j | from <= j < |rpcs| ensures !Writes(cfg, Run(cfg, INIT, rpcs[..j]), rpcs[j], k) {
      if j < n {
        assert rpcs[..n][..j] == rpcs[..j];
        assert !Writes(cfg, Run(cfg, INIT, rpcs[..n][..j]), rpcs[..n][j], k);
      }
    }
  }

  lemma {:induction false} AddressFrom(cfg: Config, rpcs: seq<Rpc>, k: Kind) returns (i: nat)
    ensures var a := Of(Run(cfg, INIT, rpcs), k).masterAddr;
            if a.None? then NeverWritten(cfg, rpcs, 0, k)
            else LastWritten(cfg, rpcs, i, k) && a == Some(AddressIn(k, rpcs[i].vals))
    decreases |rpcs|
  {
    i := 0;
    if rpcs != [] {
      var n := |rpcs| - 1;
      var before := Run(cfg, INIT, rpcs[..n]);
      i := AddressFrom(cfg, rpcs[..n], k);
      assert Run(cfg, INIT, rpcs) == Step(cfg, before, rpcs[n]);
      AddressStep(cfg, before, rpcs[n], k);
      hide Run, Step, Writes, HasAddress, AddressIn, NeverWritten;
      if Writes(cfg, before, rpcs[n], k) {
        i := n;
        NothingAfter(cfg, rpcs, k);
      } else if Of(before, k).masterAddr.None? {
        NotWrittenNow(cfg, rpcs, 0, k);
      } else {
        NotWrittenNow(cfg, rpcs, i + 1, k);
        assert rpcs[..n][..i] == rpcs[..i];
      }
    }
  }

  lemma NothingAfter(cfg: Config, rpcs: seq<Rpc>, k: Kind)
    ensures NeverWritten(cfg, rpcs, |rpcs|, k)
  {}

  lemma AddressStep(cfg: Config, st: State, rpc: Rpc, k: Kind)
    ensures Writes(cfg, st, rpc, k) ==> HasAddress(k, rpc.vals)
    ensures Of(Step(cfg, st, rpc), k).masterAddr
         == if Writes(cfg, st, rpc, k) then Some(AddressIn(k, rpc.vals)) else Of(st, k).masterAddr
  {
    hide AddErrors, AddParams, SetMasterParams, StripPid, FailureText;
    match rpc
    case Ask(_) => EligibleFound(cfg, st);
    case Params(addr, vals) => ParamsExactly(cfg, st, addr, vals, k);
    case Errors(addr, errors) => ErrorsExactly(cfg, st, addr, errors, k);
  }

  ghost predicate Named(cmds: seq<Command>, k: Kind) {
    exists c :: c in cmds && if k.Hdfs? then c.JobTracker? || IsWorker(c) else IsWorker(c)
  }

  /** The address in use was written by a report the service accepted, and no report has
      failed it since. */
  ghost predicate Current(cfg: Config, rpcs: seq<Rpc>, k: Kind) {
    exists i :: UpSince(cfg, rpcs, i, k) && LastWritten(cfg, rpcs, i, k)
  }

  /** Request `j` wrote an address but could not be read to its end, and no report has
      been accepted since. */
  ghost predicate HalfRead(cfg: Config, rpcs: seq<Rpc>, j: int, k: Kind) {
    && 0 <= j < |rpcs| && Writes(cfg, Run(cfg, INIT, rpcs[..j]), rpcs[j], k) && !ReportOk(cfg, k, rpcs[j].vals)
    && forall l | j < l < |rpcs| :: !Accepts(cfg, Run(cfg, INIT, rpcs[..l]), rpcs[l], k)
  }

  ghost predicate Spoiled(cfg: Config, rpcs: seq<Rpc>, k: Kind) {
    exists j :: HalfRead(cfg, rpcs, j, k)
  }

  lemma AcceptedIsWritten(cfg: Config, st: State, rpc: Rpc, k: Kind)
    ensures Accepts(cfg, st, rpc, k) <==> Writes(cfg, st, rpc, k) && ReportOk(cfg, k, rpc.vals)
    ensures Writes(cfg, st, rpc, k) ==> HasAddress(k, rpc.vals) && HeldBy(st, k, rpc.addr)
  {}

  lemma LastOnly(cfg: Config, rpcs: seq<Rpc>, i: int, j: int, k: Kind)
    requires LastWritten(cfg, rpcs, j, k)
    requires 0 <= i < |rpcs| && Writes(cfg, Run(cfg, INIT, rpcs[..i]), rpcs[i], k)
    ensures i <= j && (LastWritten(cfg, rpcs, i, k) ==> i == j)
  {
    hide Run, Writes;
  }

  lemma UpSinceShorter(cfg: Config, rpcs: seq<Rpc>, i: int, j: int, k: Kind)
    requires UpSince(cfg, rpcs, i, k) && i < j < |rpcs|
    ensures UpSince(cfg, rpcs[..j], i, k)
  {
    hide Run, Accepts, Fails;
    assert rpcs[..j][..i] == rpcs[..i];
    forall l | i < l < j ensures !Fails(cfg, Run(cfg, INIT, rpcs[..j][..l]), rpcs[..j][l], k) {
      assert rpcs[..j][..l] == rpcs[..l];
    }
  }

  /** While a master is up, the address in use was written by the hodring that holds it,
      with the accepted report or later. */
  lemma WriterHolds(cfg: Config, rpcs: seq<Rpc>, i: int, j: int, k: Kind)
    requires UpSince(cfg, rpcs, i, k) && LastWritten(cfg, rpcs, j, k)
    ensures i <= j && rpcs[j].addr == rpcs[i].addr && HeldBy(Run(cfg, INIT, rpcs), k, rpcs[j].addr)
  {
    LiveExactly(cfg, rpcs, k);
    AcceptedIsWritten(cfg, Run(cfg, INIT, rpcs[..i]), rpcs[i], k);
    AcceptedIsWritten(cfg, Run(cfg, INIT, rpcs[..j]), rpcs[j], k);
    LastOnly(cfg, rpcs, i, j, k);
    if i < j {
      UpSinceShorter(cfg, rpcs, i, j, k);
      LiveExactly(cfg, rpcs[..j], k);
    }
  }

  /** The last report that wrote an address was accepted, or is a half-read one. */
  lemma AcceptedOrHalfRead(cfg: Config, rpcs: seq<Rpc>, i: int, j: int, k: Kind)
    requires UpSince(cfg, rpcs, i, k) && LastWritten(cfg, rpcs, j, k)
    ensures i <= j && (UpSince(cfg, rpcs, j, k) || HalfRead(cfg, rpcs, j, k))
  {
    AcceptedIsWritten(cfg, Run(cfg, INIT, rpcs[..i]), rpcs[i], k);
    AcceptedIsWritten(cfg, Run(cfg, INIT, rpcs[..j]), rpcs[j], k);
    LastOnly(cfg, rpcs, i, j, k);
    hide Run, Writes, Accepts, Fails, ReportOk;
    if !Accepts(cfg, Run(cfg, INIT, rpcs[..j]), rpcs[j], k) {
      forall l | j < l < |rpcs| ensures !Accepts(cfg, Run(cfg, INIT, rpcs[..l]), rpcs[l], k) {
        AcceptedIsWritten(cfg, Run(cfg, INIT, rpcs[..l]), rpcs[l], k);
      }
    }
  }

  /** The address in use is that of the last accepted report, no failure since, exactly
      when the service is initialized, its failure count is zero and no report that could
      not be read to its end has written over it. */
  lemma CurrentExactly(cfg: Config, rpcs: seq<Rpc>, k: Kind)
    ensures var s := Of(Run(cfg, INIT, rpcs), k);
            Current(cfg, rpcs, k) <==> s.initialized && s.failureCount == 0 && !Spoiled(cfg, rpcs, k)
    ensures forall i | UpSince(cfg, rpcs, i, k) && LastWritten(cfg, rpcs, i, k) :: InUse(cfg, rpcs, i, k)
  {
    LiveExactly(cfg, rpcs, k);
    var j: int := AddressFrom(cfg, rpcs, k);
    forall i | UpSince(cfg, rpcs, i, k) && LastWritten(cfg, rpcs, i, k) ensures InUse(cfg, rpcs, i, k) {
      LastIsInUse(cfg, rpcs, i, j, k);
    }
    hide Run, UpSince, LastWritten, HalfRead;
    if Live(cfg, rpcs, k) {
      var i :| UpSince(cfg, rpcs, i, k);
      SomeWritten(cfg, rpcs, i, k);
      AcceptedOrHalfRead(cfg, rpcs, i, j, k);
    }
    if Current(cfg, rpcs, k) {
      NotSpoiled(cfg, rpcs, k);
    }
  }

  /** The address in use is the one in report `i`, whose sender holds the master. */
  ghost predicate InUse(cfg: Config, rpcs: seq<Rpc>, i: int, k: Kind) {
    && 0 <= i < |rpcs| && rpcs[i].Params? && HasAddress(k, rpcs[i].vals)
    && Of(Run(cfg, INIT, rpcs), k).masterAddr == Some(AddressIn(k, rpcs[i].vals))
    && HeldBy(Run(cfg, INIT, rpcs), k, rpcs[i].addr)
  }

  lemma SomeWritten(cfg: Config, rpcs: seq<Rpc>, i: int, k: Kind)
    requires UpSince(cfg, rpcs, i, k)
    ensures Of(Run(cfg, INIT, rpcs), k).masterAddr.Some?
  {
    AcceptedIsWritten(cfg, Run(cfg, INIT, rpcs[..i]), rpcs[i], k);
    var j := AddressFrom(cfg, rpcs, k);
    hide Run, Writes, Accepts;
  }

  lemma LastIsInUse(cfg: Config, rpcs: seq<Rpc>, i: int, j: int, k: Kind)
    requires UpSince(cfg, rpcs, i, k) && LastWritten(cfg, rpcs, i, k)
    requires var a := Of(Run(cfg, INIT, rpcs), k).masterAddr;
             if a.None? then NeverWritten(cfg, rpcs, 0, k)
             else LastWritten(cfg, rpcs, j, k) && a == Some(AddressIn(k, rpcs[j].vals))
    ensures InUse(cfg, rpcs, i, k)
  {
    LiveExactly(cfg, rpcs, k);
    AcceptedIsWritten(cfg, Run(cfg, INIT, rpcs[..i]), rpcs[i], k);
    SomeWritten(cfg, rpcs, i, k);
    hide Run, AddressIn, HasAddress;
    LastOnly(cfg, rpcs, i, j, k);
  }

  lemma NotSpoiled(cfg: Config, rpcs: seq<Rpc>, k: Kind)
    requires Current(cfg, rpcs, k)
    ensures !Spoiled(cfg, rpcs, k)
  {
    hide Run, Writes, Accepts, Fails, ReportOk;
    var i :| UpSince(cfg, rpcs, i, k) && LastWritten(cfg, rpcs, i, k);
    forall j ensures !HalfRead(cfg, rpcs, j, k) {
      if HalfRead(cfg, rpcs, j, k) {
        LastOnly(cfg, rpcs, j, i, k);
        AcceptedIsWritten(cfg, Run(cfg, INIT, rpcs[..j]), rpcs[j], k);
      }
    }
  }

  /** An address that is handed out in a command or answered to a client is the one in the
      last accepted report of a master that has not failed since, exactly when the failure
      count is zero and no half-read report has written over it. Otherwise it is the
      address of a master that has failed, given away until the limit is passed, or one
      that the hodring now holding the master gave in a report that was not accepted. */
  lemma AddressLiveExactly(cfg: Config, past: seq<Rpc>, asker: string, k: Kind)
    ensures var st := Run(cfg, INIT, past);
            var s := Of(st, k);
            && (s.initialized && !GaveUp(cfg, s) ==>
                  && GetServiceAddr(cfg, st, NameOf(k)) == s.masterAddr
                  && (Current(cfg, past, k) <==> s.failureCount == 0 && !Spoiled(cfg, past, k)))
            && (Named(GetCommand(cfg, st, asker).1, k) ==>
                  && s.initialized
                  && (Current(cfg, past, k) <==> s.failureCount == 0 && !Spoiled(cfg, past, k)))
            && (Current(cfg, past, k) ==> exists i :: UpSince(cfg, past, i, k) && InUse(cfg, past, i, k))
            && (s.initialized && s.failureCount == 0 ==>
                  && s.launched
                  && exists j :: LastWritten(cfg, past, j, k) && past[j].addr == s.masterAddress)
  {
    hide Run, UpSince, LastWritten, InUse, Spoiled;
    CurrentExactly(cfg, past, k);
    if Current(cfg, past, k) {
      var i :| UpSince(cfg, past, i, k) && LastWritten(cfg, past, i, k);
      assert InUse(cfg, past, i, k);
    }
    HandedOut(cfg, past, asker);
    HolderWrote(cfg, past, k);
  }

  lemma HolderWrote(cfg: Config, rpcs: seq<Rpc>, k: Kind)
    ensures var s := Of(Run(cfg, INIT, rpcs), k);
            s.initialized && s.failureCount == 0 ==>
              s.launched && exists j :: LastWritten(cfg, rpcs, j, k) && rpcs[j].addr == s.masterAddress
  {
    LiveExactly(cfg, rpcs, k);
    if Live(cfg, rpcs, k) {
      var i :| UpSince(cfg, rpcs, i, k);
      SomeWritten(cfg, rpcs, i, k);
      var j: int := AddressFrom(cfg, rpcs, k);
      hide Run, UpSince, LastWritten;
      WriterHolds(cfg, rpcs, i, j, k);
    }
  }

  // ----- runs that show the failures -----

  lemma Longer(cfg: Config, rpcs: seq<Rpc>, rpc: Rpc)
    ensures Run(cfg, INIT, rpcs + [rpc]) == Step(cfg, Run(cfg, INIT, rpcs), rpc)
  {
    assert (rpcs + [rpc])[..|rpcs|] == rpcs;
  }

  lemma KeysPlain(cfg: Config, k: Kind)
    ensures '=' !in AddressKey(k) && '=' !in InfoKey(k, cfg.version) && AddressKey(k) != InfoKey(k, cfg.version)
  {}

  lemma TwoRead(key: string, address: string, info: string, x: string) returns (vals: seq<string>)
    requires '=' !in key && '=' !in info && '=' !in address && key != info
    ensures var dict := ParseEquals(vals);
            dict.Some? && info in dict.value && key in dict.value && dict.value[key] == address
  {
    PairRead(key, address);
    PairRead(info, x);
    UptoWhole(address, '=');
    var a, b := key + "=" + address, info + "=" + x;
    assert ParseEquals([]) == Some(map[]);
    hide ParseEquals, Upto, SecondPiece;
    ReadMore([], a);
    assert [] + [a] == [a];
    ReadMore([a], b);
    vals := [a] + [b];
  }

  /** A report every service of kind `k` accepts. */
  lemma GoodReport(cfg: Config, k: Kind) returns (vals: seq<string>)
    ensures ReportOk(cfg, k, vals)
  {
    var host, port := "h", "1";
    var address := host + ":" + port;
    OneColon(host, port);
    KeysPlain(cfg, k);
    hide ParseEquals, PieceCount, InfoKey, AddressKey;
    vals := TwoRead(AddressKey(k), address, InfoKey(k, cfg.version), "x");
  }

  /** Hodring `x` comes to hold the namenode, reports it, and `y` the jobtracker. */
  lemma TwoMasters(cfg: Config, x: string, y: string, vals: seq<string>) returns (rpcs: seq<Rpc>)
    requires cfg.maxFailures >= 0 && ReportOk(cfg, Hdfs, vals)
    ensures var st := Run(cfg, INIT, rpcs); HeldBy(st, Hdfs, x) && HeldBy(st, MapRed, y)
  {
    hide ReportOk;
    rpcs := Started(cfg, x, vals);
    Longer(cfg, rpcs, Ask(y));
    EligibleFound(cfg, Run(cfg, INIT, rpcs));
    rpcs := rpcs + [Ask(y)];
  }

  /** The namenode is given to `x` and reported. */
  lemma Started(cfg: Config, x: string, vals: seq<string>) returns (rpcs: seq<Rpc>)
    requires cfg.maxFailures >= 0 && ReportOk(cfg, Hdfs, vals)
    ensures rpcs == [Ask(x), Params(x, vals)]
    ensures var st := Run(cfg, INIT, rpcs);
            && HeldBy(st, Hdfs, x) && st.hdfs.initialized && st.hdfs.failureCount == 0 && st.mapred == FRESH
            && st.hdfs.masterAddr == Some(AddressIn(Hdfs, vals))
  {
    hide AddParams, SetMasterParams, ParseEquals, PieceCount;
    FirstAsked(cfg, x);
    var one := Run(cfg, INIT, [Ask(x)]);
    Longer(cfg, [Ask(x)], Params(x, vals));
    hide Run, GetCommand;
    ParamsExactly(cfg, one, x, vals, Hdfs);
    ParamsExactly(cfg, one, x, vals, MapRed);
    rpcs := [Ask(x)] + [Params(x, vals)];
  }

  lemma FirstAsked(cfg: Config, x: string)
    requires cfg.maxFailures >= 0
    ensures Run(cfg, INIT, [Ask(x)]) == Launch(INIT, Hdfs, x)
  {
    EligibleFound(cfg, INIT);
    Longer(cfg, [], Ask(x));
    assert [] + [Ask(x)] == [Ask(x)] && Run(cfg, INIT, []) == INIT;
  }

  /** One hodring that holds both masters and fails: only the first service notices. */
  lemma OwnMasterSpared(cfg: Config, ring: string, errors: string) returns (rpcs: seq<Rpc>)
    requires cfg.maxFailures >= 0 && '_' in ring
    ensures var st := Run(cfg, INIT, rpcs);
            var after := Step(cfg, st, Errors(ring, errors));
            && HeldBy(st, Hdfs, ring) && HeldBy(st, MapRed, ring)
            && FailedNow(st, after, First(cfg)) && Of(after, Second(cfg)) == Of(st, Second(cfg))
  {
    var vals := GoodReport(cfg, Hdfs);
    rpcs := TwoMasters(cfg, ring, ring, vals);
    hide AddErrors, StripPid, Run;
    StripShortens(ring);
    ErrorsExactly(cfg, Run(cfg, INIT, rpcs), ring, errors, First(cfg));
    ErrorsExactly(cfg, Run(cfg, INIT, rpcs), ring, errors, Second(cfg));
  }

  /** Two hodrings, of which the one on host "n" with pid 1 is named like the host of
      the other, "n_1": a report of the other fails both services, in either order. */
  lemma OtherMasterHit(cfg: Config, errors: string) returns (rpcs: seq<Rpc>)
    requires cfg.maxFailures >= 0
    ensures var st := Run(cfg, INIT, rpcs);
            var after := Step(cfg, st, Errors("n_1_7", errors));
            && HeldBy(st, First(cfg), "n_1_7") && HeldBy(st, Second(cfg), "n_1")
            && FailedNow(st, after, First(cfg)) && FailedNow(st, after, Second(cfg))
  {
    assert "n_1_7"[..4] == "n_1_" && "n_1_"[..3] == "n_1";
    assert StripPid("n_1_7") == StripPid("n_1_") == "n_1";
    var vals := GoodReport(cfg, Hdfs);
    var x, y := if cfg.hdfsFirst then "n_1_7" else "n_1", if cfg.hdfsFirst then "n_1" else "n_1_7";
    rpcs := TwoMasters(cfg, x, y, vals);
    hide AddErrors, StripPid, Run;
    ErrorsExactly(cfg, Run(cfg, INIT, rpcs), "n_1_7", errors, First(cfg));
    ErrorsExactly(cfg, Run(cfg, INIT, rpcs), "n_1_7", errors, Second(cfg));
  }

  /** A namenode that has failed is still named to the next jobtracker and to clients: by
      the address that hodring `a` reported, though `a` does not hold it any more. */
  lemma StaleHandout(cfg: Config, a: string, b: string, asker: string, errors: string)
    returns (past: seq<Rpc>, vals: seq<string>)
    requires cfg.maxFailures >= 1
    ensures Params(a, vals) in past && ReportOk(cfg, Hdfs, vals)
    ensures var st := Run(cfg, INIT, past);
            && !Live(cfg, past, Hdfs) && st.hdfs.failureCount == 1 && (a != b ==> !HeldBy(st, Hdfs, a))
            && GetCommand(cfg, st, asker).1 == [JobTracker(Some(AddressIn(Hdfs, vals)))]
            && GetServiceAddr(cfg, st, "hdfs") == Some(AddressIn(Hdfs, vals))
  {
    vals := GoodReport(cfg, Hdfs);
    past := Started(cfg, a, vals);
    assert Params(a, vals) in past;
    hide AddErrors, StripPid, Run, FailureText, AddressIn, ReportOk;
    var up := Run(cfg, INIT, past);
    ErrorsExactly(cfg, up, a, errors, Hdfs);
    ErrorsExactly(cfg, up, a, errors, MapRed);
    Longer(cfg, past, Errors(a, errors));
    past := past + [Errors(a, errors)];
    EligibleFound(cfg, Run(cfg, INIT, past));
    assert !Run(cfg, INIT, past).hdfs.launched;
    if cfg.hdfsFirst {
      InOrder(cfg);
      Longer(cfg, past, Ask(b));
      past := past + [Ask(b)];
      assert Run(cfg, INIT, past).hdfs.launched;
      EligibleFound(cfg, Run(cfg, INIT, past));
    }
    LiveExactly(cfg, past, Hdfs);
    EligibleFound(cfg, Run(cfg, INIT, past));
  }

  /** A report that says where the namenode is and nothing else. */
  lemma BadReport(cfg: Config) returns (vals: seq<string>)
    ensures HasAddress(Hdfs, vals) && AddressIn(Hdfs, vals) == "zzz" && !ReportOk(cfg, Hdfs, vals)
  {
    var key := AddressKey(Hdfs);
    KeysPlain(cfg, Hdfs);
    PairRead(key, "zzz");
    UptoWhole("zzz", '=');
    NoColon("zzz");
    assert ParseEquals([]) == Some(map[]);
    hide ParseEquals, Upto, SecondPiece, PieceCount, AddressKey;
    ReadMore([], key + "=" + "zzz");
    vals := [] + [key + "=" + "zzz"];
  }

  /** A namenode that is up is named by an address of no accepted report: its hodring has
      reported again, and that report was not read to its end. */
  lemma HalfReadHandout(cfg: Config, a: string, asker: string) returns (past: seq<Rpc>)
    requires cfg.maxFailures >= 0
    ensures var st := Run(cfg, INIT, past);
            && Live(cfg, past, Hdfs) && st.hdfs.failureCount == 0 && Spoiled(cfg, past, Hdfs)
            && GetCommand(cfg, st, asker).1 == [JobTracker(Some("zzz"))]
            && GetServiceAddr(cfg, st, "hdfs") == Some("zzz")
    ensures forall i | 0 <= i < |past| && Accepts(cfg, Run(cfg, INIT, past[..i]), past[i], Hdfs) ::
              AddressIn(Hdfs, past[i].vals) != "zzz"
  {
    var good := GoodReport(cfg, Hdfs);
    var bad := BadReport(cfg);
    past := Started(cfg, a, good);
    var up := Run(cfg, INIT, past);
    AcceptedIsWritten(cfg, up, Params(a, bad), Hdfs);
    assert AddressIn(Hdfs, good) != "zzz" by {
      NoColon("zzz");
    }
    hide AddParams, SetMasterParams, Run, AddressIn, ReportOk, HasAddress;
    ParamsExactly(cfg, up, a, bad, Hdfs);
    ParamsExactly(cfg, up, a, bad, MapRed);
    Longer(cfg, past, Params(a, bad));
    assert Writes(cfg, up, Params(a, bad), Hdfs);
    var before := past;
    past := past + [Params(a, bad)];
    assert past[..2] == before;
    assert HalfRead(cfg, past, 2, Hdfs);
    LiveExactly(cfg, past, Hdfs);
    EligibleFound(cfg, Run(cfg, INIT, past));
  }
}
