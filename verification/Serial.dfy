/** Calls that nothing interrupts: step by step under the locks, they do what the
    requests of `Ringmaster` do at once. */
module Serial {
  import opened Common
  import opened Ringmaster
  import opened Handouts
  import opened Interplay

  /** The same side moves `n` times. */
  ghost function Moved(cfg: Config, s: Both, e: Event, n: nat): (r: Both)
    requires Shape(cfg, s)
    ensures Shape(cfg, r)
    decreases n
  {
    if n == 0 then s
    else
      NextShape(cfg, s, e);
      Moved(cfg, Next(cfg, s, e), e, n - 1)
  }

  ghost predicate Leads(cfg: Config, s: Both, e: Event, r: Both) {
    Shape(cfg, s) && exists n: nat :: Moved(cfg, s, e, n) == r
  }

  lemma Stays(cfg: Config, s: Both, e: Event)
    requires Shape(cfg, s)
    ensures Leads(cfg, s, e, s)
  {
    assert Moved(cfg, s, e, 0) == s;
  }

  /** One move, and what it leads to. */
  lemma OneMore(cfg: Config, s: Both, e: Event, r: Both)
    requires Shape(cfg, s) && Leads(cfg, Next(cfg, s, e), e, r)
    ensures Leads(cfg, s, e, r)
  {
    var n: nat :| Moved(cfg, Next(cfg, s, e), e, n) == r;
    assert Moved(cfg, s, e, n + 1) == r;
  }

  lemma OneMove(cfg: Config, s: Both, e: Event)
    requires Shape(cfg, s)
    ensures Leads(cfg, s, e, Next(cfg, s, e))
  {
    NextShape(cfg, s, e);
    Stays(cfg, Next(cfg, s, e), e);
    OneMore(cfg, s, e, Next(cfg, s, e));
  }

  lemma {:induction false} Composed(cfg: Config, s: Both, e: Event, n: nat, m: nat)
    requires Shape(cfg, s)
    ensures Moved(cfg, s, e, n + m) == Moved(cfg, Moved(cfg, s, e, n), e, m)
    decreases n
  {
    if n > 0 {
      NextShape(cfg, s, e);
      Composed(cfg, Next(cfg, s, e), e, n - 1, m);
    }
  }

  lemma Onward(cfg: Config, s: Both, e: Event, mid: Both, r: Both)
    requires Leads(cfg, s, e, mid) && Leads(cfg, mid, e, r)
    ensures Leads(cfg, s, e, r)
  {
    var n: nat :| Moved(cfg, s, e, n) == mid;
    var m: nat :| Moved(cfg, mid, e, m) == r;
    Composed(cfg, s, e, n, m);
  }

  // ----- getCommand -----

  /** A service is offered, the others not yet. */
  ghost predicate AtOffer(cfg: Config, s: Both) {
    Shape(cfg, s) && s.walk.Offering? && s.walk.ks != [] && s.walk.point.Start?
  }

  lemma OfferTaken(cfg: Config, s: Both)
    requires AtOffer(cfg, s) && Eligible(cfg, s.st, s.walk.ks[0])
    ensures var k := s.walk.ks[0];
            Leads(cfg, s, AskerMoves,
                  Answer(s.(st := Launch(s.st, k, s.walk.ring)), MasterCommands(cfg, s.st, k)))
  {
    hide Leads, Shape, MasterCommands;
    var e, k := AskerMoves, s.walk.ks[0];
    var s1 := Next(cfg, s, e);
    NextShape(cfg, s, e);
    assert s1 == s.(walk := s.walk.(point := SawLaunchable));
    var s2 := Next(cfg, s1, e);
    NextShape(cfg, s1, e);
    assert s2 == s.(walk := s.walk.(point := SawUnlaunched));
    var s3 := Next(cfg, s2, e);
    NextShape(cfg, s2, e);
    assert s3 == s.(walk := s.walk.(point := SawCount));
    var s4 := Next(cfg, s3, e);
    NextShape(cfg, s3, e);
    assert s4 == s.(walk := s.walk.(point := Built, cmds := MasterCommands(cfg, s.st, k)));
    var s5 := Next(cfg, s4, e);
    NextShape(cfg, s4, e);
    OneMove(cfg, s5, e);
    OneMore(cfg, s4, e, Next(cfg, s5, e));
    OneMore(cfg, s3, e, Next(cfg, s5, e));
    OneMore(cfg, s2, e, Next(cfg, s5, e));
    OneMore(cfg, s1, e, Next(cfg, s5, e));
    OneMore(cfg, s, e, Next(cfg, s5, e));
  }

  lemma OfferPassed(cfg: Config, s: Both)
    requires AtOffer(cfg, s) && !Eligible(cfg, s.st, s.walk.ks[0])
    ensures Leads(cfg, s, AskerMoves, Onwards(cfg, s))
  {
    hide Leads, Shape;
    var e, k := AskerMoves, s.walk.ks[0];
    var s1 := Next(cfg, s, e);
    OneMove(cfg, s, e);
    if Launchable(s.st, k) {
      assert s1 == s.(walk := s.walk.(point := SawLaunchable));
      NextShape(cfg, s, e);
      OneMove(cfg, s1, e);
      if !Of(s.st, k).launched {
        var s2 := Next(cfg, s1, e);
        assert s2 == s.(walk := s.walk.(point := SawUnlaunched));
        NextShape(cfg, s1, e);
        OneMove(cfg, s2, e);
        OneMore(cfg, s1, e, Next(cfg, s2, e));
        OneMore(cfg, s, e, Next(cfg, s2, e));
      } else {
        OneMore(cfg, s, e, Next(cfg, s1, e));
      }
    }
  }

  function WorkersFrom(cfg: Config, st: State, k: Kind, id: int): seq<Command>
    requires Of(st, k).masterAddr.Some?
    decreases cfg.workersPerRing - id
  {
    if id > cfg.workersPerRing then [] else [WorkerCommand(st, k, id)] + WorkersFrom(cfg, st, k, id + 1)
  }

  lemma {:induction false} FromIs(cfg: Config, st: State, k: Kind, id: int)
    requires Of(st, k).masterAddr.Some? && 1 <= id <= PerRing(cfg) + 1
    ensures WorkersFrom(cfg, st, k, id)
         == seq(PerRing(cfg) - id + 1, i requires i >= 0 => WorkerCommand(st, k, i + id))
    decreases cfg.workersPerRing - id
  {
    if id <= cfg.workersPerRing {
      FromIs(cfg, st, k, id + 1);
    }
  }

  ghost predicate AtGather(cfg: Config, s: Both) {
    Shape(cfg, s) && s.walk.Gathering?
  }

  lemma {:induction false} GatherService(cfg: Config, s: Both)
    requires AtGather(cfg, s) && s.walk.ks != [] && s.walk.id > 0 && Of(s.st, s.walk.ks[0]).masterAddr.Some?
    ensures var w := s.walk;
            Leads(cfg, s, AskerMoves,
                  s.(walk := Gathering(w.ring, w.ks[1..], 0,
                                       w.cmds + (w.cl + WorkersFrom(cfg, s.st, w.ks[0], w.id)), [])))
    decreases cfg.workersPerRing - s.walk.id
  {
    hide Leads, Shape;
    var w, next := s.walk, Next(cfg, s, AskerMoves);
    NextShape(cfg, s, AskerMoves);
    if w.id > cfg.workersPerRing {
      assert w.cl + [] == w.cl;
      OneMove(cfg, s, AskerMoves);
    } else {
      GatherService(cfg, next);
      var c := WorkerCommand(s.st, w.ks[0], w.id);
      assert w.cl + ([c] + WorkersFrom(cfg, s.st, w.ks[0], w.id + 1))
          == w.cl + [c] + WorkersFrom(cfg, s.st, w.ks[0], w.id + 1);
      OneMore(cfg, s, AskerMoves, s.(walk := Gathering(w.ring, w.ks[1..], 0,
                                       w.cmds + (w.cl + WorkersFrom(cfg, s.st, w.ks[0], w.id)), [])));
    }
  }

  lemma {:induction false} GatherAll(cfg: Config, s: Both)
    requires AtGather(cfg, s) && s.walk.id == 0 && s.walk.cl == []
    ensures Leads(cfg, s, AskerMoves, Answer(s, WorkersFor(cfg, s.st, s.walk.ks, s.walk.cmds)))
    decreases |s.walk.ks|
  {
    hide Leads, Shape;
    var w, e, next := s.walk, AskerMoves, Next(cfg, s, AskerMoves);
    NextShape(cfg, s, e);
    OneMove(cfg, s, e);
    if w.ks != [] && Of(s.st, w.ks[0]).initialized {
      var k := w.ks[0];
      assert next == s.(walk := w.(id := 1));
      NextShape(cfg, next, e);
      OneMove(cfg, next, e);
      var last := Answer(s, WorkersFor(cfg, s.st, w.ks, w.cmds));
      if Of(s.st, k).masterAddr.Some? {
        FromIs(cfg, s.st, k, 1);
        GatherService(cfg, next);
        var cl := WorkersFrom(cfg, s.st, k, 1);
        assert [] + cl == cl;
        var mid := s.(walk := Gathering(w.ring, w.ks[1..], 0, w.cmds + cl, []));
        assert WorkerCommands(cfg, s.st, k) == Some(cl);
        RestShape(cfg, next, mid);
        GatherAll(cfg, mid);
        Onward(cfg, next, e, mid, last);
      } else if cfg.workersPerRing < 1 {
        var mid := Next(cfg, next, e);
        assert w.cmds + [] == w.cmds;
        GatherAll(cfg, mid);
        OneMore(cfg, next, e, last);
      }
      OneMore(cfg, s, e, last);
    }
  }

  lemma RestShape(cfg: Config, s: Both, mid: Both)
    requires Leads(cfg, s, AskerMoves, mid)
    ensures Shape(cfg, mid)
  {}

  lemma {:induction false} OfferAll(cfg: Config, s: Both)
    requires AtOffer(cfg, s) && Left(cfg, s.walk.ks)
    ensures var k := FirstEligible(cfg, s.st, s.walk.ks);
            Leads(cfg, s, AskerMoves,
                  if k.Some? then
                    Answer(s.(st := Launch(s.st, k.value, s.walk.ring)), MasterCommands(cfg, s.st, k.value))
                  else Answer(s, WorkersFor(cfg, s.st, Order(cfg), [])))
    decreases |s.walk.ks|
  {
    LeftParts(cfg, s.walk.ks);
    hide Leads, Shape, MasterCommands, Left, Eligible, WorkersFor;
    if Eligible(cfg, s.st, s.walk.ks[0]) {
      OfferTaken(cfg, s);
    } else {
      OfferPassed(cfg, s);
      var next := Onwards(cfg, s);
      RestShape(cfg, s, next);
      if |s.walk.ks| == 1 {
        assert s.walk.ks[1..] == [];
        GatherAll(cfg, next);
        Onward(cfg, s, AskerMoves, next, Answer(next, WorkersFor(cfg, s.st, Order(cfg), [])));
      } else {
        OfferAll(cfg, next);
        var k := FirstEligible(cfg, s.st, next.walk.ks);
        Onward(cfg, s, AskerMoves, next,
               if k.Some? then
                 Answer(next.(st := Launch(s.st, k.value, s.walk.ring)), MasterCommands(cfg, s.st, k.value))
               else Answer(next, WorkersFor(cfg, s.st, Order(cfg), [])));
      }
    }
  }

  /** getCommand, when no report comes between, answers and changes what the single
      request does. */
  lemma AskAlone(cfg: Config, s: Both, ring: string)
    requires Shape(cfg, s) && s.walk.Idle?
    ensures var (after, cmds) := GetCommand(cfg, s.st, ring);
            Leads(cfg, Next(cfg, s, Asks(ring)), AskerMoves, s.(st := after, answers := s.answers + [cmds]))
  {
    NextShape(cfg, s, Asks(ring));
    LeftAll(cfg);
    var asked := Next(cfg, s, Asks(ring));
    hide Leads, Shape, MasterCommands, WorkersFor, FirstEligible;
    OfferAll(cfg, asked);
  }

  // ----- reports -----

  ghost predicate AtService(cfg: Config, s: Both) {
    Shape(cfg, s) && s.talk.Telling? && s.talk.ks != [] && s.talk.stage.Begin? && Left(cfg, s.talk.ks)
  }

  lemma ServicePassed(cfg: Config, s: Both)
    requires AtService(cfg, s) && !HeldBy(s.st, s.talk.ks[0], s.talk.name)
    ensures Leads(cfg, s, ReporterMoves, Past(s, s.talk.name))
  {
    hide Leads, Shape;
    var e := ReporterMoves;
    var s1 := Next(cfg, s, e);
    OneMove(cfg, s, e);
    if Of(s.st, s.talk.ks[0]).launched {
      assert s1 == s.(talk := s.talk.(stage := SawLaunched));
      NextShape(cfg, s, e);
      OneMove(cfg, s1, e);
      OneMore(cfg, s, e, Next(cfg, s1, e));
    }
  }

  /** From the match on. */
  lemma ServiceMatched(cfg: Config, s: Both, r: Both)
    requires AtService(cfg, s) && HeldBy(s.st, s.talk.ks[0], s.talk.name)
    ensures var matched := s.(talk := s.talk.(stage := Matched));
            Shape(cfg, matched) && (Leads(cfg, matched, ReporterMoves, r) ==> Leads(cfg, s, ReporterMoves, r))
  {
    hide Leads, Shape;
    var e := ReporterMoves;
    var s1 := Next(cfg, s, e);
    assert s1 == s.(talk := s.talk.(stage := SawLaunched));
    NextShape(cfg, s, e);
    var s2 := Next(cfg, s1, e);
    assert s2 == s.(talk := s.talk.(stage := Matched));
    NextShape(cfg, s1, e);
    if Leads(cfg, s2, e, r) {
      OneMore(cfg, s1, e, r);
      OneMore(cfg, s, e, r);
    }
  }

  lemma ServiceFails(cfg: Config, s: Both)
    requires AtService(cfg, s) && HeldBy(s.st, s.talk.ks[0], s.talk.name) && s.talk.body.Failure?
    ensures var k, host := s.talk.ks[0], StripPid(s.talk.name);
            var failed := SetMasterFailed(Of(s.st, k), FailureText(host, s.talk.body.text));
            Leads(cfg, s, ReporterMoves, Past(s.(st := With(s.st, k, failed)), host))
  {
    hide Leads, Shape, FailureText, StripPid;
    var e, k, v := ReporterMoves, s.talk.ks[0], Of(s.st, s.talk.ks[0]);
    var text := FailureText(StripPid(s.talk.name), s.talk.body.text);
    ServiceMatched(cfg, s, s);
    var s0 := s.(talk := s.talk.(stage := Matched));
    var s1 := Next(cfg, s0, e);
    NextShape(cfg, s0, e);
    assert s1 == s.(talk := s.talk.(stage := ReadCount(v.failureCount)));
    var s2 := Next(cfg, s1, e);
    NextShape(cfg, s1, e);
    var v2 := v.(failureCount := v.failureCount + 1);
    assert s2 == s.(st := With(s.st, k, v2), talk := s.talk.(stage := WroteCount));
    var s3 := Next(cfg, s2, e);
    NextShape(cfg, s2, e);
    assert s3 == s.(st := With(s.st, k, v2.(failedMsg := Some(text))), talk := s.talk.(stage := WroteMsg));
    var s4 := Next(cfg, s3, e);
    OneMove(cfg, s3, e);
    OneMore(cfg, s2, e, s4);
    OneMore(cfg, s1, e, s4);
    OneMore(cfg, s0, e, s4);
    ServiceMatched(cfg, s, s4);
  }

  lemma ServiceTold(cfg: Config, s: Both)
    requires AtService(cfg, s) && HeldBy(s.st, s.talk.ks[0], s.talk.name) && s.talk.body.Parameters?
    ensures var k := s.talk.ks[0];
            var u := SetMasterParams(cfg, Of(s.st, k), k, s.talk.body.vals);
            Leads(cfg, s, ReporterMoves,
                  if u.ok then Past(s.(st := With(s.st, k, SetMasterInitialized(u.service))), s.talk.name)
                  else s.(st := With(s.st, k, u.service), talk := Silent))
  {
    var e, k, v := ReporterMoves, s.talk.ks[0], Of(s.st, s.talk.ks[0]);
    var u := SetMasterParams(cfg, v, k, s.talk.body.vals);
    ParamsExactly(cfg, s.st, s.talk.name, s.talk.body.vals, k);
    hide Leads, Shape, SetMasterParams, ReportOk, HasAddress, AddressIn, AddParams;
    ServiceMatched(cfg, s, s);
    var s0 := s.(talk := s.talk.(stage := Matched));
    var s1 := Next(cfg, s0, e);
    OneMove(cfg, s0, e);
    NextShape(cfg, s0, e);
    if !HasAddress(k, s.talk.body.vals) {
      assert With(s.st, k, u.service) == s.st;
      OkHasAddress(cfg, k, s.talk.body.vals);
      ServiceMatched(cfg, s, s1);
    } else {
      var v1 := v.(masterAddr := u.service.masterAddr);
      assert s1 == s.(st := With(s.st, k, v1), talk := s.talk.(stage := WroteAddr));
      OneMove(cfg, s1, e);
      NextShape(cfg, s1, e);
      var s2 := Next(cfg, s1, e);
      if u.ok {
        ServiceWritten(cfg, s, v1, u.service);
        OneMore(cfg, s0, e, Past(s.(st := With(s.st, k, SetMasterInitialized(u.service))), s.talk.name));
        ServiceMatched(cfg, s, Past(s.(st := With(s.st, k, SetMasterInitialized(u.service))), s.talk.name));
      } else {
        NothingMore(cfg, v, k, s.talk.body.vals);
        OneMore(cfg, s0, e, s2);
        ServiceMatched(cfg, s, s2);
      }
    }
  }

  lemma OkHasAddress(cfg: Config, k: Kind, vals: seq<string>)
    ensures ReportOk(cfg, k, vals) ==> HasAddress(k, vals)
  {}

  lemma NothingMore(cfg: Config, v: Service, k: Kind, vals: seq<string>)
    ensures var u := SetMasterParams(cfg, v, k, vals); !u.ok ==> u.service.infoAddr == v.infoAddr
  {}

  lemma SameInfo(cfg: Config, v: Service, v1: Service, k: Kind, vals: seq<string>)
    ensures var u, u1 := SetMasterParams(cfg, v, k, vals), SetMasterParams(cfg, v1, k, vals);
            u.ok ==> u1.service.infoAddr == u.service.infoAddr
  {}

  /** Behind the address of a report that can be read. */
  lemma ServiceWritten(cfg: Config, s: Both, v1: Service, u: Service)
    requires s.talk.Telling? && s.talk.ks != [] && s.talk.body.Parameters?
    requires var k := s.talk.ks[0];
             && ReportOk(cfg, k, s.talk.body.vals)
             && Updated(u, true) == SetMasterParams(cfg, Of(s.st, k), k, s.talk.body.vals)
             && v1 == Of(s.st, k).(masterAddr := u.masterAddr) && v1.(infoAddr := u.infoAddr) == u
    requires Shape(cfg, s.(st := With(s.st, s.talk.ks[0], v1), talk := s.talk.(stage := WroteAddr)))
    ensures var k := s.talk.ks[0];
            Leads(cfg, s.(st := With(s.st, k, v1), talk := s.talk.(stage := WroteAddr)), ReporterMoves,
                  Past(s.(st := With(s.st, k, SetMasterInitialized(u))), s.talk.name))
  {
    var e, k := ReporterMoves, s.talk.ks[0];
    SameInfo(cfg, Of(s.st, k), v1, k, s.talk.body.vals);
    hide Leads, Shape, SetMasterParams, ReportOk, HasAddress, AddressIn;
    var s1 := s.(st := With(s.st, k, v1), talk := s.talk.(stage := WroteAddr));
    var s2 := Next(cfg, s1, e);
    NextShape(cfg, s1, e);
    assert s2 == s.(st := With(s.st, k, u), talk := s.talk.(stage := WroteInfo));
    var s3 := Next(cfg, s2, e);
    NextShape(cfg, s2, e);
    assert s3 == s.(st := With(s.st, k, u.(initialized := true)), talk := s.talk.(stage := WroteInit));
    var s4 := Next(cfg, s3, e);
    NextShape(cfg, s3, e);
    assert s4 == s.(st := With(s.st, k, u.(initialized := true, failureCount := 0)),
                    talk := s.talk.(stage := WroteZero));
    var s5 := Next(cfg, s4, e);
    OneMove(cfg, s4, e);
    OneMore(cfg, s3, e, s5);
    OneMore(cfg, s2, e, s5);
    OneMore(cfg, s1, e, s5);
  }

  /** What the request makes of the services. */
  function Told(cfg: Config, st: State, ks: seq<Kind>, name: string, body: Body): State {
    match body
    case Parameters(vals) => AddParams(cfg, st, ks, name, vals)
    case Failure(text) => AddErrors(st, ks, name, text)
  }

  lemma {:induction false} TellAll(cfg: Config, s: Both)
    requires AtService(cfg, s)
    ensures Leads(cfg, s, ReporterMoves,
                  s.(st := Told(cfg, s.st, s.talk.ks, s.talk.name, s.talk.body), talk := Silent))
    decreases |s.talk.ks|
  {
    LeftParts(cfg, s.talk.ks);
    hide Leads, Shape, Left, StripPid, FailureText, SetMasterParams;
    var t, k := s.talk, s.talk.ks[0];
    var u := if t.body.Parameters? then SetMasterParams(cfg, Of(s.st, k), k, t.body.vals) else Updated(FRESH, true);
    var host := StripPid(t.name);
    if !HeldBy(s.st, k, t.name) {
      ServicePassed(cfg, s);
      TellRest(cfg, s, s.st, t.name);
    } else if t.body.Failure? {
      ServiceFails(cfg, s);
      TellRest(cfg, s, With(s.st, k, SetMasterFailed(Of(s.st, k), FailureText(host, t.body.text))), host);
    } else {
      ServiceTold(cfg, s);
      if u.ok {
        TellRest(cfg, s, With(s.st, k, SetMasterInitialized(u.service)), t.name);
      }
    }
  }

  lemma {:induction false} TellRest(cfg: Config, s: Both, st: State, name: string)
    requires AtService(cfg, s) && Leads(cfg, s, ReporterMoves, Past(s.(st := st), name))
    ensures Leads(cfg, s, ReporterMoves,
                  s.(st := Told(cfg, st, s.talk.ks[1..], name, s.talk.body), talk := Silent))
    decreases |s.talk.ks|, 0
  {
    LeftParts(cfg, s.talk.ks);
    hide Leads, Shape, Left;
    var next := Past(s.(st := st), name);
    if |s.talk.ks| == 1 {
      assert s.talk.ks[1..] == [];
    } else {
      ReportShape(cfg, s, next);
      TellAll(cfg, next);
      Onward(cfg, s, ReporterMoves, next,
             next.(st := Told(cfg, st, s.talk.ks[1..], name, s.talk.body), talk := Silent));
    }
  }

  lemma ReportShape(cfg: Config, s: Both, mid: Both)
    requires Leads(cfg, s, ReporterMoves, mid)
    ensures Shape(cfg, mid)
  {}

  /** A report of parameters or of errors, when getCommand does not come between, changes
      what the single request does. */
  lemma ReportAlone(cfg: Config, s: Both, name: string, body: Body)
    requires Shape(cfg, s) && s.talk.Silent?
    ensures Leads(cfg, Next(cfg, s, Reports(name, body)), ReporterMoves,
                  s.(st := match body
                           case Parameters(vals) => Step(cfg, s.st, Params(name, vals))
                           case Failure(text) => Step(cfg, s.st, Errors(name, text))))
  {
    NextShape(cfg, s, Reports(name, body));
    LeftAll(cfg);
    var told := Next(cfg, s, Reports(name, body));
    hide Leads, Shape, Left, AddParams, AddErrors;
    TellAll(cfg, told);
  }
}
