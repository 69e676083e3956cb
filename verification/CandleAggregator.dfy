/** The one-pass aggregation of ticks into labelled candles (DataPrep/src/DataPrep.java),
    against grouping into runs. A tick's `slot` is the minute part of its time. */
module CandleAggregator {
  import opened Common

  datatype Tick = Tick(pair: string, slot: string, price: real)

  datatype Candle = Candle(pair: string, time: string, high: real, low: real, close: real)

  datatype Record = Record(candle: Candle, trend: int)

  /** The start values of the two extremes: Double.MIN_VALUE and Double.MAX_VALUE. */
  datatype Bounds = Bounds(lo: real, hi: real)

  // ----- runs -----

  function Last<T>(s: seq<T>): T
    requires s != []
  {
    s[|s| - 1]
  }

  function Init<T>(s: seq<T>): seq<T>
    requires s != []
  {
    s[..|s| - 1]
  }

  /** Maximal runs of ticks of the same slot. */
  function Runs(ticks: seq<Tick>): (r: seq<seq<Tick>>)
    ensures forall k | 0 <= k < |r| :: r[k] != []
    ensures ticks != [] <==> r != []
  {
    if ticks == [] then []
    else
      var before, t := Runs(Init(ticks)), Last(ticks);
      if before != [] && Last(Last(before)).slot == t.slot then Init(before) + [Last(before) + [t]]
      else before + [[t]]
  }

  ghost predicate Uniform(run: seq<Tick>) {
    run != [] && forall i | 0 <= i < |run| :: run[i].slot == run[0].slot
  }

  /** Each run is of one slot, and neighbours are of different slots. */
  ghost predicate MaximalRuns(runs: seq<seq<Tick>>) {
    && (forall k | 0 <= k < |runs| :: Uniform(runs[k]))
    && forall k, n | 0 <= k && n == k + 1 < |runs| ::
         runs[k] != [] && runs[n] != [] && runs[k][0].slot != runs[n][0].slot
  }

  lemma MaximalStep(before: seq<seq<Tick>>, t: Tick)
    requires MaximalRuns(before)
    ensures before != [] && Last(before) != [] && Last(Last(before)).slot == t.slot ==>
              MaximalRuns(Init(before) + [Last(before) + [t]])
    ensures before == [] || (Last(before) != [] && Last(Last(before)).slot != t.slot) ==> MaximalRuns(before + [[t]])
  {
    if before != [] {
      var n := |before| - 1;
      assert Uniform(before[n]);
      assert before[n] != [] && Last(before[n]).slot == t.slot ==> Uniform(before[n] + [t]);
    }
    assert Uniform([t]);
  }

  lemma {:induction false} RunsUniform(ticks: seq<Tick>)
    ensures MaximalRuns(Runs(ticks))
  {
    if ticks == [] {
    } else {
      RunsUniform(Init(ticks));
      MaximalStep(Runs(Init(ticks)), Last(ticks));
    }
  }

  lemma {:induction false} RunsFlatten(ticks: seq<Tick>)
    ensures Flatten(Runs(ticks)) == ticks
  {
    if ticks == [] {
    } else {
      RunsFlatten(Init(ticks));
      var before, t := Runs(Init(ticks)), Last(ticks);
      assert ticks == Init(ticks) + [t];
      FlattenPush(before, [t]);
      if before != [] {
        assert before == Init(before) + [Last(before)];
        FlattenPush(Init(before), Last(before));
        FlattenPush(Init(before), Last(before) + [t]);
        hide Flatten;
        assert Flatten(Init(before)) + (Last(before) + [t]) == Flatten(Init(before)) + Last(before) + [t];
      }
    }
  }

  /** The runs are the ticks cut wherever the slot changes, and only there. */
  lemma RunsPartition(ticks: seq<Tick>)
    ensures Flatten(Runs(ticks)) == ticks && MaximalRuns(Runs(ticks))
  {
    RunsFlatten(ticks);
    RunsUniform(ticks);
  }

  /** The closed runs and the one being read, which is empty at the start only. */
  function Closed(done: seq<seq<Tick>>, run: seq<Tick>): seq<seq<Tick>> {
    if run == [] then done else done + [run]
  }

  lemma RunsNext(ticks: seq<Tick>, i: nat, done: seq<seq<Tick>>, run: seq<Tick>)
    requires i < |ticks| && Runs(ticks[..i]) == Closed(done, run) && (run == [] ==> done == [])
    ensures run != [] ==> Uniform(run)
    ensures run != [] && run[0].slot == ticks[i].slot ==> Runs(ticks[..i + 1]) == done + [run + [ticks[i]]]
    ensures !(run != [] && run[0].slot == ticks[i].slot) ==> Runs(ticks[..i + 1]) == Closed(done, run) + [[ticks[i]]]
  {
    var next := ticks[..i + 1];
    assert Init(next) == ticks[..i] && Last(next) == ticks[i];
    RunsUniform(ticks[..i]);
    if run != [] {
      var runs := Runs(ticks[..i]);
      assert Last(runs) == run && Init(runs) == done && Uniform(runs[|runs| - 1]);
    }
  }

  /** Runs that another one follows do not change any more. */
  lemma {:induction false} RunsStable(ticks: seq<Tick>, i: nat)
    requires i <= |ticks|
    ensures var early, all := Runs(ticks[..i]), Runs(ticks);
            |early| <= |all| && forall k | 0 <= k < |early| - 1 :: early[k] == all[k]
    decreases |ticks| - i
  {
    if i == |ticks| {
      assert ticks[..i] == ticks;
    } else {
      RunsStable(ticks, i + 1);
      assert Init(ticks[..i + 1]) == ticks[..i];
    }
  }

  // ----- what a run is summed up to -----

  ghost predicate FirstMax(run: seq<Tick>, i: int) {
    && 0 <= i < |run|
    && (forall j | 0 <= j < |run| :: run[j].price <= run[i].price)
    && forall j | 0 <= j < i :: run[j].price < run[i].price
  }

  ghost predicate IsMin(run: seq<Tick>, price: real) {
    (exists i :: 0 <= i < |run| && run[i].price == price) && forall j | 0 <= j < |run| :: price <= run[j].price
  }

  ghost predicate Summarizes(c: Candle, run: seq<Tick>) {
    && run != [] && c.time == run[0].slot && c.close == Last(run).price
    && (exists i :: FirstMax(run, i) && c.high == run[i].price && c.pair == run[i].pair)
    && IsMin(run, c.low)
  }

  /** Some price passes each start value; otherwise an extreme is never set. */
  ghost predicate Priceable(b: Bounds, run: seq<Tick>) {
    (exists i :: 0 <= i < |run| && run[i].price > b.lo) && (exists i :: 0 <= i < |run| && run[i].price < b.hi)
  }

  function Trend(c: Candle, next: Candle): int {
    if next.close > c.close then 1 else if next.close < c.close then -1 else 0
  }

  /** 1 where the price rises, -1 where it drops and 0 where it stays. */
  ghost predicate Points(trend: int, price: real, next: real) {
    trend in {-1, 0, 1} && (trend == 1 <==> price < next) && (trend == -1 <==> next < price)
  }

  /** The first `n` runs have candles `cs`. */
  ghost predicate Summed(b: Bounds, runs: seq<seq<Tick>>, cs: seq<Candle>) {
    |cs| <= |runs| && forall k | 0 <= k < |cs| :: Priceable(b, runs[k]) && Summarizes(cs[k], runs[k])
  }

  ghost predicate Labelled(cs: seq<Candle>, out: seq<Record>) {
    && |out| == (if cs == [] then 0 else |cs| - 1)
    && forall k | 0 <= k < |out| :: out[k].candle == cs[k] && Points(out[k].trend, cs[k].close, cs[k + 1].close)
  }

  /** The whole behaviour: candles are made of all runs but the last, up to the first
      that has no extreme, where the program fails; each candle but the newest is
      written with the direction of the next close. */
  ghost predicate Emits(b: Bounds, ticks: seq<Tick>, out: seq<Record>, crashed: bool) {
    exists cs: seq<Candle> :: EmitsFrom(b, Runs(ticks), cs, out, crashed)
  }

  ghost predicate EmitsFrom(b: Bounds, runs: seq<seq<Tick>>, cs: seq<Candle>, out: seq<Record>, crashed: bool) {
    && Summed(b, runs, cs) && Labelled(cs, out)
    && if crashed then |cs| < |runs| - 1 && !Priceable(b, runs[|cs|])
       else |cs| == (if runs == [] then 0 else |runs| - 1)
  }

  // ----- the loop -----

  ghost predicate HighSoFar(b: Bounds, run: seq<Tick>, high: Option<Tick>, localMax: real) {
    match high
    case None => localMax == b.lo && forall i | 0 <= i < |run| :: run[i].price <= b.lo
    case Some(t) => localMax == t.price > b.lo && exists i :: FirstMax(run, i) && run[i] == t
  }

  ghost predicate LowSoFar(b: Bounds, run: seq<Tick>, low: Option<Tick>, localMin: real) {
    match low
    case None => localMin == b.hi && forall i | 0 <= i < |run| :: run[i].price >= b.hi
    case Some(t) => localMin == t.price < b.hi && IsMin(run, t.price)
  }

  lemma HighNext(b: Bounds, run: seq<Tick>, high: Option<Tick>, localMax: real, t: Tick)
    requires HighSoFar(b, run, high, localMax)
    ensures t.price > localMax ==> HighSoFar(b, run + [t], Some(t), t.price)
    ensures t.price <= localMax ==> HighSoFar(b, run + [t], high, localMax)
  {
    if t.price > localMax {
      assert FirstMax(run + [t], |run|);
    } else if high.Some? {
      var i :| FirstMax(run, i) && run[i] == high.value;
      assert FirstMax(run + [t], i);
    }
  }

  lemma LowNext(b: Bounds, run: seq<Tick>, low: Option<Tick>, localMin: real, t: Tick)
    requires LowSoFar(b, run, low, localMin)
    ensures t.price < localMin ==> LowSoFar(b, run + [t], Some(t), t.price)
    ensures t.price >= localMin ==> LowSoFar(b, run + [t], low, localMin)
  {
    var longer := run + [t];
    if t.price < localMin {
      assert longer[|run|].price == t.price;
    } else if low.Some? {
      var i :| 0 <= i < |run| && run[i].price == low.value.price;
      assert longer[i].price == low.value.price;
    }
  }

  /** A candle can be made exactly when both extremes were set. */
  lemma CandleMade(b: Bounds, run: seq<Tick>, high: Option<Tick>, low: Option<Tick>, localMax: real, localMin: real)
    requires Uniform(run) && HighSoFar(b, run, high, localMax) && LowSoFar(b, run, low, localMin)
    ensures Priceable(b, run) <==> high.Some? && low.Some?
    ensures high.Some? && low.Some? ==>
              Summarizes(Candle(high.value.pair, run[0].slot, high.value.price, low.value.price, Last(run).price), run)
  {}

  /** Some run that another one follows has no price past one of the start values. */
  ghost predicate Unpriceable(b: Bounds, ticks: seq<Tick>) {
    exists k :: 0 <= k < |Runs(ticks)| - 1 && !Priceable(b, Runs(ticks)[k])
  }

  method Aggregate(b: Bounds, ticks: seq<Tick>) returns (out: seq<Record>, crashed: bool)
    ensures Emits(b, ticks, out, crashed)
    ensures crashed <==> Unpriceable(b, ticks)
  {
    hide Unpriceable;
    hide Runs, HighSoFar, LowSoFar, Summarizes, Priceable, Uniform, Emits, Labelled, Summed;
    out, crashed := [], false;
    var timeSlot: Option<string> := None;
    var closePrice: Option<Tick>, highPrice: Option<Tick>, lowPrice: Option<Tick> := None, None, None;
    var localMax, localMin := b.lo, b.hi;
    var prev: Option<Candle> := None;
    ghost var cs: seq<Candle>, done: seq<seq<Tick>>, run: seq<Tick> := [], [], [];
    Begins(b);
    assert ticks[..0] == [];
    for i := 0 to |ticks|
      invariant Runs(ticks[..i]) == Closed(done, run) && (run == [] <==> i == 0) && (run == [] ==> done == [])
      invariant Summed(b, done, cs) && |cs| == |done| && Labelled(cs, out)
      invariant prev == if cs == [] then None else Some(Last(cs))
      invariant run == [] ==> timeSlot.None?
      invariant run != [] ==> timeSlot == Some(run[0].slot) && closePrice == Some(Last(run))
      invariant HighSoFar(b, run, highPrice, localMax) && LowSoFar(b, run, lowPrice, localMin)
    {
      var curPrice := ticks[i];
      ghost var runs := Closed(done, run) + [[curPrice]];
      RunsNext(ticks, i, done, run);
      if timeSlot.Some? && curPrice.slot != timeSlot.value {
        CandleMade(b, run, highPrice, lowPrice, localMax, localMin);
        if highPrice.None? || lowPrice.None? {
          Fails(b, ticks, i, done, run, cs, out);
          FailsExactly(b, ticks, out, true);
          return out, true;
        }
        var cur := Candle(highPrice.value.pair, timeSlot.value, highPrice.value.price, lowPrice.value.price,
                          closePrice.value.price);
        SumsOne(b, done, run, cs, out, cur);
        if prev.Some? {
          out := out + [Record(prev.value, Trend(prev.value, cur))];
        }
        cs, done, run := cs + [cur], done + [run], [];
        prev := Some(cur);
        timeSlot := Some(curPrice.slot);
        closePrice, highPrice, lowPrice := None, None, None;
        localMax, localMin := b.lo, b.hi;
        Begins(b);
      }
      if timeSlot.None? {
        timeSlot := Some(curPrice.slot);
      }
      HighNext(b, run, highPrice, localMax, curPrice);
      LowNext(b, run, lowPrice, localMin, curPrice);
      if curPrice.price > localMax {
        highPrice, localMax := Some(curPrice), curPrice.price;
      }
      if curPrice.price < localMin {
        lowPrice, localMin := Some(curPrice), curPrice.price;
      }
      closePrice := Some(curPrice);
      assert run == [] ==> run + [curPrice] == [curPrice] && runs == done + [[curPrice]];
      assert Runs(ticks[..i + 1]) == done + [run + [curPrice]];
      run := run + [curPrice];
    }
    assert ticks[..|ticks|] == ticks;
    Ends(b, ticks, done, run, cs, out);
    FailsExactly(b, ticks, out, false);
  }

  lemma Begins(b: Bounds)
    ensures HighSoFar(b, [], None, b.lo) && LowSoFar(b, [], None, b.hi)
    ensures Summed(b, [], []) && Labelled([], [])
    ensures Runs([]) == []
  {}

  lemma SumsOne(b: Bounds, done: seq<seq<Tick>>, run: seq<Tick>, cs: seq<Candle>, out: seq<Record>, cur: Candle)
    requires Summed(b, done, cs) && |cs| == |done| && Labelled(cs, out)
    requires Priceable(b, run) && Summarizes(cur, run)
    ensures Summed(b, done + [run], cs + [cur])
    ensures Labelled(cs + [cur], if cs == [] then out else out + [Record(Last(cs), Trend(Last(cs), cur))])
  {
    hide Priceable, Summarizes, Labelled;
    LabelsOne(cs, out, cur);
  }

  lemma LabelsOne(cs: seq<Candle>, out: seq<Record>, cur: Candle)
    requires Labelled(cs, out)
    ensures Labelled(cs + [cur], if cs == [] then out else out + [Record(Last(cs), Trend(Last(cs), cur))])
  {
    if cs != [] {
      var c := Last(cs);
      assert Points(Trend(c, cur), c.close, cur.close);
      hide Points, Trend;
      var more, longer := out + [Record(c, Trend(c, cur))], cs + [cur];
      forall k | 0 <= k < |more|
        ensures more[k].candle == longer[k] && Points(more[k].trend, longer[k].close, longer[k + 1].close)
      {
        if k < |out| {
          assert more[k] == out[k] && longer[k] == cs[k] && longer[k + 1] == cs[k + 1];
        }
      }
    }
  }

  lemma Fails(b: Bounds, ticks: seq<Tick>, i: nat, done: seq<seq<Tick>>, run: seq<Tick>, cs: seq<Candle>,
              out: seq<Record>)
    requires i < |ticks| && run != [] && Runs(ticks[..i + 1]) == Closed(done, run) + [[ticks[i]]]
    requires Summed(b, done, cs) && |cs| == |done| && Labelled(cs, out) && !Priceable(b, run)
    ensures Emits(b, ticks, out, true)
  {
    RunsStable(ticks, i + 1);
    var early, all := Runs(ticks[..i + 1]), Runs(ticks);
    assert early == done + [run] + [[ticks[i]]];
    hide Runs, Summarizes, Priceable, Labelled;
    assert early[|done|] == run && all[|cs|] == run;
    assert Summed(b, all, cs) by {
      assert forall k | 0 <= k < |cs| :: all[k] == early[k] == done[k];
    }
    assert EmitsFrom(b, all, cs, out, true);
  }

  lemma Ends(b: Bounds, ticks: seq<Tick>, done: seq<seq<Tick>>, run: seq<Tick>, cs: seq<Candle>, out: seq<Record>)
    requires Runs(ticks) == Closed(done, run) && (run == [] ==> done == [])
    requires Summed(b, done, cs) && |cs| == |done| && Labelled(cs, out)
    ensures Emits(b, ticks, out, false)
  {
    assert Summed(b, Runs(ticks), cs);
    assert EmitsFrom(b, Runs(ticks), cs, out, false);
  }

  /** The record of a run: its candle, and the way to the next run's close. */
  ghost predicate Records(r: Record, run: seq<Tick>, nextRun: seq<Tick>) {
    && Summarizes(r.candle, run)
    && run != [] && nextRun != [] && Points(r.trend, Last(run).price, Last(nextRun).price)
  }

  /** With prices between the two start values nothing fails: out come the candles of
      all runs but the last two, in order, each labelled with where the last price of the
      next run lies. */
  lemma AllButTwo(b: Bounds, ticks: seq<Tick>, out: seq<Record>, crashed: bool)
    requires Emits(b, ticks, out, crashed)
    requires forall i | 0 <= i < |ticks| :: b.lo < ticks[i].price < b.hi
    ensures !crashed && |out| == (if |Runs(ticks)| <= 2 then 0 else |Runs(ticks)| - 2)
    ensures forall k | 0 <= k < |out| :: Records(out[k], Runs(ticks)[k], Runs(ticks)[k + 1])
  {
    var runs := Runs(ticks);
    var cs: seq<Candle> :| EmitsFrom(b, runs, cs, out, crashed);
    forall k | 0 <= k < |runs| ensures Priceable(b, runs[k]) {
      InsideIsPriceable(b, ticks, k);
    }
    hide Runs, Priceable, Points, FirstMax, IsMin;
    forall k | 0 <= k < |out| ensures Records(out[k], runs[k], runs[k + 1]) {
      assert Summarizes(cs[k], runs[k]) && Summarizes(cs[k + 1], runs[k + 1]);
      assert out[k].candle == cs[k] && Points(out[k].trend, cs[k].close, cs[k + 1].close);
    }
  }

  lemma InsideIsPriceable(b: Bounds, ticks: seq<Tick>, k: nat)
    requires k < |Runs(ticks)| && forall i | 0 <= i < |ticks| :: b.lo < ticks[i].price < b.hi
    ensures Priceable(b, Runs(ticks)[k])
  {
    var run := Runs(ticks)[k];
    RunsFlatten(ticks);
    MemberOfFlatten(Runs(ticks), k, run[0]);
    assert run[0].price > b.lo && run[0].price < b.hi;
  }

  /** It fails exactly when a run that another one follows has no extreme to offer. */
  lemma FailsExactly(b: Bounds, ticks: seq<Tick>, out: seq<Record>, crashed: bool)
    requires Emits(b, ticks, out, crashed)
    ensures crashed <==> Unpriceable(b, ticks)
  {
    var runs := Runs(ticks);
    var cs: seq<Candle> :| EmitsFrom(b, runs, cs, out, crashed);
    hide Runs, Priceable, Summarizes, Labelled;
    if crashed {
      assert !Priceable(b, runs[|cs|]);
    } else {
      assert forall k | 0 <= k < |cs| :: Priceable(b, runs[k]);
    }
  }

  /** It does fail: a minute whose only price is zero, and a tick of another minute. */
  lemma ZeroPriceFails(b: Bounds, pair: string, first: string, second: string, price: real)
    requires b.lo > 0.0 && first != second
    ensures Unpriceable(b, [Tick(pair, first, 0.0), Tick(pair, second, price)])
  {
    var a, z := Tick(pair, first, 0.0), Tick(pair, second, price);
    var ticks := [a, z];
    assert Init(ticks) == [a] && Last(ticks) == z && Init([a]) == [] && Last([a]) == a;
    assert Runs([a]) == [[a]] && Runs(ticks) == [[a], [z]];
    assert !Priceable(b, [a]);
    assert Runs(ticks)[0] == [a];
  }
}
