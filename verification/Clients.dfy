/** What clients are told, over all runs of the ringmaster's requests. */
module Clients {
  import opened Common
  import opened HodParams
  import opened Ringmaster
  import opened Handouts

  // ----- the text of a failure -----

  /** A hodring is named by its host and, behind the last '_', its process. */
  ghost predicate HostOf(ring: string, host: string) {
    if '_' in ring then exists pid :: '_' !in pid && ring == host + "_" + pid
    else host == ring
  }

  lemma {:induction false} StripsPid(ring: string)
    ensures HostOf(ring, StripPid(ring))
    decreases |ring|
  {
    if '_' in ring {
      var n := |ring| - 1;
      if ring[n] == '_' {
        assert '_' !in "" && ring == ring[..n] + "_" + "";
      } else {
        StripsPid(ring[..n]);
        var pid :| '_' !in pid && ring[..n] == StripPid(ring[..n]) + "_" + pid;
        assert ring == StripPid(ring) + "_" + (pid + [ring[n]]);
      }
    }
  }

  /** Request `i` is the last report that failed the service. */
  ghost predicate LastFailure(cfg: Config, rpcs: seq<Rpc>, i: int, k: Kind) {
    && 0 <= i < |rpcs| && Fails(cfg, Run(cfg, INIT, rpcs[..i]), rpcs[i], k)
    && forall j | i < j < |rpcs| :: !Fails(cfg, Run(cfg, INIT, rpcs[..j]), rpcs[j], k)
  }

  /** `msg` speaks of report `i` and of the host that held the master when it came. */
  ghost predicate TellsOf(cfg: Config, rpcs: seq<Rpc>, i: int, k: Kind, msg: string) {
    && 0 <= i < |rpcs| && rpcs[i].Errors?
    && exists host ::
         && HostOf(Of(Run(cfg, INIT, rpcs[..i]), k).masterAddress, host)
         && msg == "Hodring at " + host + " failed with following errors:\n" + rpcs[i].errors
  }

  lemma MessageStep(cfg: Config, st: State, rpc: Rpc, k: Kind)
    ensures var s, t := Of(st, k), Of(Step(cfg, st, rpc), k);
            if Fails(cfg, st, rpc, k) then
              && rpc.Errors? && s.launched
              && t.failedMsg == Some("Hodring at " + StripPid(s.masterAddress) + " failed with following errors:\n"
                                     + rpc.errors)
            else if Accepts(cfg, st, rpc, k) then t.failedMsg == None
            else t.failedMsg == s.failedMsg
  {
    hide AddErrors, AddParams, SetMasterParams, StripPid, ReportOk, HasAddress;
    match rpc
    case Ask(_) => EligibleFound(cfg, st);
    case Params(addr, vals) => ParamsExactly(cfg, st, addr, vals, k);
    case Errors(addr, errors) => ErrorsExactly(cfg, st, addr, errors, k);
  }

  lemma {:induction false} MessageFrom(cfg: Config, rpcs: seq<Rpc>, k: Kind) returns (i: int)
    ensures var msg := Of(Run(cfg, INIT, rpcs), k).failedMsg;
            msg.Some? ==> LastFailure(cfg, rpcs, i, k) && TellsOf(cfg, rpcs, i, k, msg.value)
    decreases |rpcs|
  {
    i := 0;
    if rpcs != [] {
      var n := |rpcs| - 1;
      var before := Run(cfg, INIT, rpcs[..n]);
      i := MessageFrom(cfg, rpcs[..n], k);
      MessageStep(cfg, before, rpcs[n], k);
      StripsPid(Of(before, k).masterAddress);
      assert Run(cfg, INIT, rpcs) == Step(cfg, before, rpcs[n]);
      hide Run, Step, Fails, Accepts, HostOf;
      if Fails(cfg, before, rpcs[n], k) {
        i := n;
      } else if Of(Run(cfg, INIT, rpcs), k).failedMsg.Some? {
        StillLast(cfg, rpcs, i, k, Of(before, k).failedMsg.value);
      }
    }
  }

  lemma StillLast(cfg: Config, rpcs: seq<Rpc>, i: int, k: Kind, msg: string)
    requires rpcs != []
    requires var n := |rpcs| - 1;
             && LastFailure(cfg, rpcs[..n], i, k) && TellsOf(cfg, rpcs[..n], i, k, msg)
             && !Fails(cfg, Run(cfg, INIT, rpcs[..n]), rpcs[n], k)
    ensures LastFailure(cfg, rpcs, i, k) && TellsOf(cfg, rpcs, i, k, msg)
  {
    hide Run, Fails, HostOf;
    var n := |rpcs| - 1;
    assert rpcs[..n][..i] == rpcs[..i];
    forall j | i < j < |rpcs| ensures !Fails(cfg, Run(cfg, INIT, rpcs[..j]), rpcs[j], k) {
      if j < n {
        assert rpcs[..n][..j] == rpcs[..j];
        assert !Fails(cfg, Run(cfg, INIT, rpcs[..n][..j]), rpcs[..n][j], k);
      }
    }
  }

  // ----- what is initialized -----

  ghost predicate EverAccepted(cfg: Config, rpcs: seq<Rpc>, k: Kind) {
    exists i :: 0 <= i < |rpcs| && Accepts(cfg, Run(cfg, INIT, rpcs[..i]), rpcs[i], k)
  }

  lemma {:induction false} InitializedExactly(cfg: Config, rpcs: seq<Rpc>, k: Kind)
    ensures Of(Run(cfg, INIT, rpcs), k).initialized <==> EverAccepted(cfg, rpcs, k)
    decreases |rpcs|
  {
    if rpcs != [] {
      var n := |rpcs| - 1;
      var before := Run(cfg, INIT, rpcs[..n]);
      InitializedExactly(cfg, rpcs[..n], k);
      InitializedStep(cfg, before, rpcs[n], k);
      assert Run(cfg, INIT, rpcs) == Step(cfg, before, rpcs[n]);
      hide Run, Step, Accepts;
      assert forall i | 0 <= i < n :: rpcs[..n][..i] == rpcs[..i] && rpcs[..n][i] == rpcs[i];
      if EverAccepted(cfg, rpcs[..n], k) {
        var i :| 0 <= i < n && Accepts(cfg, Run(cfg, INIT, rpcs[..n][..i]), rpcs[..n][i], k);
        assert Accepts(cfg, Run(cfg, INIT, rpcs[..i]), rpcs[i], k);
      }
      if EverAccepted(cfg, rpcs, k) {
        var i :| 0 <= i < |rpcs| && Accepts(cfg, Run(cfg, INIT, rpcs[..i]), rpcs[i], k);
        assert i < n ==> Accepts(cfg, Run(cfg, INIT, rpcs[..n][..i]), rpcs[..n][i], k);
      }
    }
  }

  lemma InitializedStep(cfg: Config, st: State, rpc: Rpc, k: Kind)
    ensures Of(Step(cfg, st, rpc), k).initialized <==> Of(st, k).initialized || Accepts(cfg, st, rpc, k)
  {
    hide AddErrors, AddParams, SetMasterParams, StripPid, FailureText, ReportOk, HasAddress;
    match rpc
    case Ask(_) => EligibleFound(cfg, st);
    case Params(addr, vals) => ParamsExactly(cfg, st, addr, vals, k);
    case Errors(addr, errors) => ErrorsExactly(cfg, st, addr, errors, k);
  }

  // ----- the answer -----

  ghost predicate ServiceName(k: Kind, name: string) {
    name == if k.Hdfs? then "hdfs" else "mapred"
  }

  /** What a client that asks for a service is answered. Over the limit, it is an error
      that tells of the last failure and of the host that held the master then; below it
      the address last written, if a report was ever accepted; otherwise, and for every
      other name, "not found". */
  lemma AnswerExactly(cfg: Config, past: seq<Rpc>, k: Kind, name: string)
    requires ServiceName(k, name)
    ensures var st := Run(cfg, INIT, past);
            var count, answer := Of(st, k).failureCount, GetServiceAddr(cfg, st, name);
            if count > 0 && count > cfg.maxFailures then
              exists i, msg ::
                LastFailure(cfg, past, i, k) && TellsOf(cfg, past, i, k, msg) && answer == Some("Error: " + msg)
            else if EverAccepted(cfg, past, k) then
              exists j ::
                && LastWritten(cfg, past, j, k) && HasAddress(k, past[j].vals)
                && answer == Some(AddressIn(k, past[j].vals))
            else answer == Some("not found")
    ensures forall other | !ServiceName(Hdfs, other) && !ServiceName(MapRed, other) ::
              GetServiceAddr(cfg, Run(cfg, INIT, past), other) == Some("not found")
  {
    RunsKeep(cfg, past);
    InitializedExactly(cfg, past, k);
    var i := MessageFrom(cfg, past, k);
    var j := AddressFrom(cfg, past, k);
    hide Run, LastFailure, TellsOf, EverAccepted, AddressIn, Accepts, Reached, Says;
  }

  // ----- the limit is reached -----

  /** A hodring that fails each time it is given the namenode brings the service to the
      failure after the last one allowed. */
  lemma {:induction false} FailsOnce(cfg: Config, ring: string, errors: string, st: State) returns (after: State)
    requires !st.hdfs.launched && st.hdfs.failureCount <= cfg.maxFailures && st.mapred == FRESH && !st.hdfs.initialized
    ensures after == Step(cfg, Step(cfg, st, Ask(ring)), Errors(ring, errors))
    ensures !after.hdfs.launched && !after.hdfs.initialized && after.mapred == FRESH
    ensures after.hdfs.failureCount == st.hdfs.failureCount + 1 && after.hdfs.failedMsg.Some?
  {
    hide AddErrors, StripPid, FailureText;
    EligibleFound(cfg, st);
    var mid := Step(cfg, st, Ask(ring));
    assert mid == Launch(st, Hdfs, ring);
    ErrorsExactly(cfg, mid, ring, errors, Hdfs);
    ErrorsExactly(cfg, mid, ring, errors, MapRed);
    after := Step(cfg, mid, Errors(ring, errors));
  }

  lemma {:induction false} FailsTimes(cfg: Config, ring: string, errors: string, n: nat) returns (rpcs: seq<Rpc>)
    requires n <= cfg.maxFailures + 1
    ensures var st := Run(cfg, INIT, rpcs);
            && !st.hdfs.launched && !st.hdfs.initialized && st.mapred == FRESH && st.hdfs.failureCount == n
            && (n > 0 ==> st.hdfs.failedMsg.Some?)
  {
    rpcs := [];
    if n > 0 {
      rpcs := FailsTimes(cfg, ring, errors, n - 1);
      Longer(cfg, rpcs, Ask(ring));
      Longer(cfg, rpcs + [Ask(ring)], Errors(ring, errors));
      hide Run, Step;
      var after := FailsOnce(cfg, ring, errors, Run(cfg, INIT, rpcs));
      rpcs := rpcs + [Ask(ring)] + [Errors(ring, errors)];
    }
  }

  lemma LimitReached(cfg: Config, ring: string, errors: string) returns (rpcs: seq<Rpc>)
    requires cfg.maxFailures >= 0
    ensures var st := Run(cfg, INIT, rpcs);
            GaveUp(cfg, st.hdfs) && st.hdfs.failureCount == cfg.maxFailures + 1
  {
    rpcs := FailsTimes(cfg, ring, errors, cfg.maxFailures + 1);
  }
}
