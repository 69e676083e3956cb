/** Noticing an idle cluster (hodlib/RingMaster/idleJobTracker.py): a poll at a time,
    against the run of idle polls that ends there. */
module IdleMonitor {

  /** One poll: the job count, or an error of the hadoop client, and the time. */
  datatype Poll = Poll(jobs: int, err: bool, now: real)

  predicate Idle(p: Poll) {
    p.jobs == 0 || p.err
  }

  class JobTrackerMonitor {
    const idlenessLimit: real
    var firstIdleTime: real

    constructor (limit: real)
      ensures idlenessLimit == limit && firstIdleTime == 0.0
    {
      idlenessLimit := limit;
      firstIdleTime := 0.0;
    }

    /** __isIdle; the time is read once, in the branch that needs it. */
    method IsIdle(p: Poll) returns (r: bool)
      modifies this
      ensures firstIdleTime == Mark(old(firstIdleTime), p)
      ensures r == Crossed(idlenessLimit, old(firstIdleTime), p)
    {
      if p.jobs == 0 || p.err {
        if firstIdleTime == 0.0 {
          firstIdleTime := p.now;
        } else if p.now - firstIdleTime >= idlenessLimit {
          return true;
        }
      } else {
        firstIdleTime := 0.0;
      }
      return false;
    }

    /** The monitor thread over a whole trace, from a new monitor. */
    method Watch(polls: seq<Poll>) returns (verdicts: seq<bool>)
      requires firstIdleTime == 0.0 && Positive(polls)
      modifies this
      ensures |verdicts| == |polls|
      ensures forall n | 0 <= n < |polls| :: verdicts[n] <==> IdleTooLong(idlenessLimit, polls, n)
    {
      verdicts := [];
      for n := 0 to |polls|
        invariant |verdicts| == n && firstIdleTime == MarkAfter(polls[..n])
        invariant forall k | 0 <= k < n :: verdicts[k] <==> IdleTooLong(idlenessLimit, polls, k)
      {
        VerdictExact(idlenessLimit, polls, n);
        assert polls[..n + 1][..n] == polls[..n];
        var r := IsIdle(polls[n]);
        verdicts := verdicts + [r];
      }
    }
  }

  function Mark(first: real, p: Poll): real {
    if !Idle(p) then 0.0 else if first == 0.0 then p.now else first
  }

  predicate Crossed(limit: real, first: real, p: Poll) {
    Idle(p) && first != 0.0 && p.now - first >= limit
  }

  function MarkAfter(polls: seq<Poll>): real {
    if polls == [] then 0.0 else Mark(MarkAfter(polls[..|polls| - 1]), polls[|polls| - 1])
  }

  /** Times are positive: 0 marks "not idle". */
  ghost predicate Positive(polls: seq<Poll>) {
    forall i | 0 <= i < |polls| :: polls[i].now > 0.0
  }

  /** Polls `s` to `n` are a maximal run of idle polls that ends at `n`. */
  ghost predicate IdleRun(polls: seq<Poll>, s: int, n: int) {
    && 0 <= s <= n < |polls|
    && (forall i | s <= i <= n :: polls[i].jobs == 0 || polls[i].err)
    && (s > 0 ==> polls[s - 1].jobs != 0 && !polls[s - 1].err)
  }

  ghost predicate IdleTooLong(limit: real, polls: seq<Poll>, n: int) {
    exists s :: IdleRun(polls, s, n) && s < n && polls[n].now - polls[s].now >= limit
  }

  lemma {:induction false} RunExists(polls: seq<Poll>, n: nat) returns (s: nat)
    requires n < |polls| && Idle(polls[n])
    ensures IdleRun(polls, s, n)
  {
    s := n;
    if n > 0 && Idle(polls[n - 1]) {
      s := RunExists(polls, n - 1);
    }
  }

  lemma MarkStep(polls: seq<Poll>, n: nat)
    requires n < |polls|
    ensures MarkAfter(polls[..n + 1]) == Mark(MarkAfter(polls[..n]), polls[n]) && MarkAfter(polls[..0]) == 0.0
  {
    assert polls[..n + 1][..n] == polls[..n] && polls[..n + 1][n] == polls[n];
  }

  /** The mark is the time of the first poll of the idle run that is going on. */
  lemma {:induction false} MarkIsRunStart(polls: seq<Poll>, n: nat)
    requires Positive(polls) && n < |polls|
    ensures MarkAfter(polls[..n + 1]) == 0.0 <==> !Idle(polls[n])
    ensures forall s | IdleRun(polls, s, n) :: MarkAfter(polls[..n + 1]) == polls[s].now
  {
    assert polls[n].now > 0.0;
    MarkStep(polls, n);
    hide MarkAfter, Positive;
    if n > 0 {
      MarkIsRunStart(polls, n - 1);
      assert polls[..n - 1 + 1] == polls[..n];
    }
    forall s | IdleRun(polls, s, n) ensures MarkAfter(polls[..n + 1]) == polls[s].now {
      if n > 0 {
        RunGoesOn(polls, s, n);
        assert s == n ==> !Idle(polls[n - 1]);
      }
    }
  }

  lemma RunGoesOn(polls: seq<Poll>, s: int, n: nat)
    requires 0 < n < |polls|
    ensures IdleRun(polls, s, n) && s < n <==> IdleRun(polls, s, n - 1) && Idle(polls[n])
    ensures IdleRun(polls, s, n - 1) ==> Idle(polls[n - 1])
  {}

  lemma MarkBefore(polls: seq<Poll>, n: nat)
    requires Positive(polls) && 0 < n < |polls|
    ensures MarkAfter(polls[..n]) == 0.0 <==> !Idle(polls[n - 1])
    ensures forall s | IdleRun(polls, s, n - 1) :: MarkAfter(polls[..n]) == polls[s].now
  {
    assert polls[..n - 1 + 1] == polls[..n];
    MarkIsRunStart(polls, n - 1);
  }

  /** A poll reports idleness exactly when the run of idle polls ending there began at
      an earlier poll, the limit or longer ago. */
  lemma VerdictExact(limit: real, polls: seq<Poll>, n: nat)
    requires Positive(polls) && n < |polls|
    ensures Crossed(limit, MarkAfter(polls[..n]), polls[n]) <==> IdleTooLong(limit, polls, n)
  {
    if n == 0 {
      assert polls[..0] == [];
    } else {
      hide MarkAfter, Positive, IdleRun, Idle;
      MarkBefore(polls, n);
      if IdleTooLong(limit, polls, n) {
        var s :| IdleRun(polls, s, n) && s < n && polls[n].now - polls[s].now >= limit;
        RunGoesOn(polls, s, n);
      }
      if Crossed(limit, MarkAfter(polls[..n]), polls[n]) {
        var s := RunExists(polls, n - 1);
        RunGoesOn(polls, s, n);
      }
    }
  }
}
