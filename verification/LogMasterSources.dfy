/** The ringmaster's objects: services whose setters change their fields, and the
    RPC methods of _LogMasterSources that loop over them. Each RPC runs under a
    lock here; `Interleaving` looks at the locks. */
module LogMasterSources {
  import opened Common
  import opened HodParams
  import opened Ringmaster

  class MasterSlave {
    const kind: Kind
    var launchedMaster: bool
    var masterInitialized: bool
    var masterAddress: string
    var failedMsg: Option<string>
    var masterFailureCount: nat
    var masterAddr: Option<string>
    var infoAddr: Option<string>

    constructor (kind: Kind)
      ensures this.kind == kind && Now() == FRESH
    {
      this.kind := kind;
      launchedMaster, masterInitialized, masterAddress := false, false, "none";
      failedMsg, masterFailureCount, masterAddr, infoAddr := None, 0, None, None;
    }

    ghost function Now(): Service
      reads this
    {
      Service(launchedMaster, masterInitialized, masterAddress, failedMsg, masterFailureCount, masterAddr, infoAddr)
    }

    method SetLaunchedMaster()
      modifies this
      ensures Now() == old(Now()).(launched := true)
    {
      launchedMaster := true;
    }

    method SetMasterAddress(addr: string)
      modifies this
      ensures Now() == old(Now()).(masterAddress := addr)
    {
      masterAddress := addr;
    }

    method SetInitialized()
      modifies this
      ensures Now() == SetMasterInitialized(old(Now()))
    {
      masterInitialized := true;
      masterFailureCount := 0;
      failedMsg := None;
    }

    method SetFailed(err: string)
      modifies this
      ensures Now() == SetMasterFailed(old(Now()), err)
    {
      masterFailureCount := masterFailureCount + 1;
      failedMsg := Some(err);
      launchedMaster := false;
    }

    /** The hodring's report; `ok` is false where the original raises. */
    method SetParams(cfg: Config, vals: seq<string>) returns (ok: bool)
      modifies this
      ensures Updated(Now(), ok) == SetMasterParams(cfg, old(Now()), kind, vals)
    {
      var dict := ParseEqualsLoop(vals);
      if dict.None? || AddressKey(kind) !in dict.value {
        return false;
      }
      var address := dict.value[AddressKey(kind)];
      masterAddr := Some(address);
      if PieceCount(address, ':') != 2 || InfoKey(kind, cfg.version) !in dict.value {
        return false;
      }
      var info := dict.value[InfoKey(kind, cfg.version)];
      infoAddr := Some(if cfg.version < 16 then Upto(address, ':') + ":" + info else info);
      return true;
    }
  }

  class Sources {
    const cfg: Config
    const hdfs: MasterSlave
    const mapred: MasterSlave

    constructor (cfg: Config)
      ensures this.cfg == cfg && Valid() && fresh(hdfs) && fresh(mapred) && Now() == INIT
    {
      this.cfg := cfg;
      hdfs := new MasterSlave(Hdfs);
      mapred := new MasterSlave(MapRed);
    }

    ghost predicate Valid() {
      hdfs.kind == Hdfs && mapred.kind == MapRed
    }

    ghost function Now(): State
      reads hdfs, mapred
    {
      State(hdfs.Now(), mapred.Now())
    }

    function Pick(k: Kind): MasterSlave {
      if k.Hdfs? then hdfs else mapred
    }

    method IsEligible(k: Kind) returns (b: bool)
      requires Valid()
      ensures b <==> Eligible(cfg, Now(), k)
    {
      var v := Pick(k);
      b := (k.Hdfs? || hdfs.masterInitialized) && !v.launchedMaster && v.masterFailureCount <= cfg.maxFailures;
    }

    method GetMasterCommands(k: Kind) returns (cmds: seq<Command>)
      requires Valid()
      ensures cmds == MasterCommands(cfg, Now(), k)
    {
      cmds := [];
      if k.MapRed? {
        return [JobTracker(hdfs.masterAddr)];
      }
      if cfg.format {
        cmds := cmds + [NameNode(true, false)];
      }
      if cfg.upgrade {
        cmds := cmds + [NameNode(false, true)];
      } else {
        cmds := cmds + [NameNode(false, false)];
      }
    }

    method GetWorkerCommands(k: Kind) returns (cmds: Option<seq<Command>>)
      requires Valid()
      ensures cmds == WorkerCommands(cfg, Now(), k)
    {
      var v := Pick(k);
      var workerCmds: seq<Command> := [];
      if cfg.workersPerRing <= 0 {
        return Some([]);
      }
      ghost var st := Now();
      for id := 1 to cfg.workersPerRing + 1
        invariant |workerCmds| == id - 1 && (id > 1 ==> Of(st, k).masterAddr.Some?)
        invariant forall i | 0 <= i < id - 1 :: workerCmds[i] == WorkerCommand(st, k, i + 1)
      {
        if v.masterAddr.None? {
          return None;
        }
        workerCmds := workerCmds + [if k.Hdfs? then DataNode(id, v.masterAddr.value)
                                    else TaskTracker(id, v.masterAddr.value, hdfs.masterAddr)];
      }
      assert workerCmds == seq(cfg.workersPerRing, i requires i >= 0 => WorkerCommand(st, k, i + 1));
      return Some(workerCmds);
    }

    method HandOut(addr: string) returns (cmds: seq<Command>)
      requires Valid()
      modifies hdfs, mapred
      ensures (Now(), cmds) == GetCommand(cfg, old(Now()), addr)
      ensures Inv(cfg, old(Now())) ==> Answers(cfg, old(Now()), addr, Now(), cmds)
    {
      if Inv(cfg, Now()) {
        GivesAnswer(cfg, Now(), addr);
      }
      hide Answers;
      var ks := Order(cfg);
      var i := 0;
      while i < |ks|
        invariant 0 <= i <= |ks| && Now() == old(Now())
        invariant FirstEligible(cfg, Now(), ks) == FirstEligible(cfg, Now(), ks[i..])
      {
        assert ks[i..][0] == ks[i] && ks[i..][1..] == ks[i + 1..];
        var eligible := IsEligible(ks[i]);
        if eligible {
          cmds := GetMasterCommands(ks[i]);
          Pick(ks[i]).SetLaunchedMaster();
          Pick(ks[i]).SetMasterAddress(addr);
          return;
        }
        i := i + 1;
      }
      cmds := [];
      i := 0;
      while i < |ks|
        invariant 0 <= i <= |ks| && Now() == old(Now())
        invariant WorkersFor(cfg, Now(), ks, []) == WorkersFor(cfg, Now(), ks[i..], cmds)
      {
        assert ks[i..][0] == ks[i] && ks[i..][1..] == ks[i + 1..];
        if Pick(ks[i]).masterInitialized {
          var cl := GetWorkerCommands(ks[i]);
          if cl.None? {
            return;
          }
          cmds := cmds + cl.value;
        } else {
          return [];
        }
        i := i + 1;
      }
    }

    method AddMasterParams(addr: string, vals: seq<string>)
      requires Valid()
      modifies hdfs, mapred
      ensures Now() == AddParams(cfg, old(Now()), Order(cfg), addr, vals)
    {
      var ks := Order(cfg);
      var i := 0;
      while i < |ks|
        invariant 0 <= i <= |ks|
        invariant AddParams(cfg, old(Now()), ks, addr, vals) == AddParams(cfg, Now(), ks[i..], addr, vals)
      {
        assert ks[i..][0] == ks[i] && ks[i..][1..] == ks[i + 1..];
        var v := Pick(ks[i]);
        ghost var before := Now();
        if v.launchedMaster && v.masterAddress == addr {
          var ok := v.SetParams(cfg, vals);
          ghost var u := SetMasterParams(cfg, Of(before, ks[i]), ks[i], vals);
          assert Now() == With(before, ks[i], u.service);
          if !ok {
            return;
          }
          v.SetInitialized();
          assert Now() == With(before, ks[i], SetMasterInitialized(u.service));
        }
        i := i + 1;
      }
    }

    method SetHodRingErrors(addr: string, errors: string)
      requires Valid()
      modifies hdfs, mapred
      ensures Now() == AddErrors(old(Now()), Order(cfg), addr, errors)
    {
      var ks := Order(cfg);
      var name := addr;
      var i := 0;
      while i < |ks|
        invariant 0 <= i <= |ks|
        invariant AddErrors(old(Now()), ks, addr, errors) == AddErrors(Now(), ks[i..], name, errors)
      {
        assert ks[i..][0] == ks[i] && ks[i..][1..] == ks[i + 1..];
        var v := Pick(ks[i]);
        ghost var before := Now();
        if v.launchedMaster && v.masterAddress == name {
          name := StripPid(name);
          v.SetFailed(FailureText(name, errors));
          assert Now() == With(before, ks[i], SetMasterFailed(Of(before, ks[i]), FailureText(name, errors)));
        }
        i := i + 1;
      }
    }

    /** getServiceAddr; in the states that occur a client is always given an answer. */
    method ServiceAddr(name: string) returns (addr: Option<string>)
      requires Valid()
      ensures addr == GetServiceAddr(cfg, Now(), name)
      ensures Inv(cfg, Now()) ==> addr.Some?
    {
      if name != NameOf(Hdfs) && name != NameOf(MapRed) {
        return Some("not found");
      }
      var service := Pick(if name == NameOf(Hdfs) then Hdfs else MapRed);
      if service.failedMsg.Some? && service.masterFailureCount > cfg.maxFailures {
        addr := Some("Error: " + service.failedMsg.value);
      } else if service.masterInitialized {
        addr := service.masterAddr;
      } else {
        addr := Some("not found");
      }
    }
  }
}
