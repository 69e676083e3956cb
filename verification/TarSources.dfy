/** Handing out tarball sources (registerTarSource and getTarList of
    hodlib/RingMaster/ringMaster.py) and the hodrings that download from them. */
module TarSources {
  import opened Common

  type Counts = map<string, int>

  ghost predicate Enumerates(order: seq<string>, counts: Counts) {
    && (forall i | 0 <= i < |order| :: order[i] in counts)
    && forall k | k in counts :: k in order
  }

  /** `k` may be sent: no source has fewer downloads, and it can take one more. */
  ghost predicate LeastLoaded(counts: Counts, maxConnect: int, k: string) {
    && k in counts && counts[k] < maxConnect
    && forall j | j in counts :: counts[k] <= counts[j]
  }

  ghost predicate Saturated(counts: Counts, maxConnect: int) {
    forall k | k in counts :: counts[k] >= maxConnect
  }

  /** The lowest count is -1, which the scan takes for its start marker, and the scan
      does not end there. */
  ghost predicate Misled(counts: Counts, order: seq<string>)
    requires Enumerates(order, counts)
  {
    && (forall k | k in counts :: counts[k] >= -1)
    && (exists k :: k in counts && counts[k] == -1)
    && order != [] && counts[order[|order| - 1]] != -1
  }

  /** The counts after a source registers, and whether `addr` was known; if not, the
      KeyError leaves the lock held. No address is the empty string. */
  function Registered(counts: Counts, url: string, addr: string): (Counts, bool) {
    var c := counts[url := 0];
    if addr == "" then (c, true)
    else if addr in c then (c[addr := c[addr] - 1], true)
    else (c, false)
  }

  /** What the scan knows after `i` sources; `b` is where it last (re)started. */
  ghost predicate Scanned(counts: Counts, maxConnect: nat, order: seq<string>, i: nat, b: nat,
                          leastKey: Option<string>, leastVal: int)
    requires Enumerates(order, counts) && i <= |order|
  {
    && b <= i && (leastKey.Some? ==> leastKey.value in counts)
    && (if i == 0 then leastVal == -1 && leastKey.None?
        else if leastVal < -1 then
          && leastKey.Some? && counts[leastKey.value] == leastVal
          && forall j | 0 <= j < i :: leastVal <= counts[order[j]]
        else if leastVal == -1 then
          && leastKey == Some(order[i - 1]) && counts[order[i - 1]] == -1
          && forall j | 0 <= j < i :: counts[order[j]] >= -1
        else
          && b < i && (forall j | 0 <= j < b :: counts[order[j]] >= -1) && (b > 0 ==> counts[order[b - 1]] == -1)
          && (forall j | b <= j < i :: counts[order[j]] >= 0)
          && if exists j :: b <= j < i && counts[order[j]] < maxConnect then
               && leastKey.Some? && counts[leastKey.value] == leastVal < maxConnect
               && forall j | b <= j < i :: leastVal <= counts[order[j]]
             else
               && leastVal >= maxConnect
               && if b == 0 then leastKey.None? else leastKey.Some? && counts[leastKey.value] == -1)
  }

  /** One pass of the loop body. */
  lemma ScanStep(counts: Counts, maxConnect: nat, order: seq<string>, i: nat, b: nat,
                 leastKey: Option<string>, leastVal: int)
    requires Enumerates(order, counts) && i < |order|
    requires Scanned(counts, maxConnect, order, i, b, leastKey, leastVal)
    ensures var v := counts[order[i]];
            var lv := if leastVal == -1 then v else leastVal;
            var take := v <= lv && v < maxConnect;
            Scanned(counts, maxConnect, order, i + 1, if leastVal == -1 then i else b,
                    if take then Some(order[i]) else leastKey, if take then v else lv)
  {}

  class Sources {
    const maxConnect: nat
    var dict: map<string, string>
    var count: Counts

    ghost predicate Valid()
      reads this
    {
      dict.Keys == count.Keys && forall k | k in dict :: dict[k] == k
    }

    constructor (maxConnect: nat)
      ensures this.maxConnect == maxConnect && Valid() && count == map[]
    {
      this.maxConnect := maxConnect;
      dict, count := map[], map[];
    }

    method RegisterTarSource(url: string, addr: string) returns (ok: bool)
      requires Valid()
      modifies this
      ensures Valid()
      ensures (count, ok) == Registered(old(count), url, addr)
    {
      dict := dict[url := url];
      count := count[url := 0];
      if addr != "" {
        if addr !in count {
          return false;
        }
        var c := count[addr];
        count := count[addr := c - 1];
      }
      return true;
    }

    /** getTarList; `order` is the order in which the dictionary yields its keys, and
        None stands for the answer 'none'. A least-loaded source gets one more download,
        and none is given when all are full, except exactly when the scan is misled:
        then the source is not a least-loaded one, or its count jumps over the limit. */
    method GetTarList(order: seq<string>) returns (url: Option<string>)
      requires Valid() && Enumerates(order, count)
      modifies this
      ensures Valid()
      ensures url.None? ==> count == old(count)
      ensures url.Some? ==> url.value in old(count) && url.value in count
                               && count == old(count)[url.value := count[url.value]]
      ensures !Misled(old(count), order) ==>
                && (url.None? <==> Saturated(old(count), maxConnect))
                && (url.Some? ==>
                      && LeastLoaded(old(count), maxConnect, url.value)
                      && count[url.value] == old(count)[url.value] + 1)
      ensures Misled(old(count), order) ==>
                && url.Some?
                && if old(count)[url.value] == -1 then count[url.value] > maxConnect
                   else old(count)[url.value] >= 0 && count[url.value] == old(count)[url.value] + 1
    {
      hide Scanned;
      var leastKey: Option<string> := None;
      var leastVal := -1;
      ghost var b: nat := 0;
      ScanStarts(count, maxConnect, order);
      for i := 0 to |order|
        invariant count == old(count) && dict == old(dict)
        invariant b <= i && Scanned(count, maxConnect, order, i, b, leastKey, leastVal)
      {
        ScanStep(count, maxConnect, order, i, b, leastKey, leastVal);
        var k, v := order[i], count[order[i]];
        if leastVal == -1 {
          leastVal := v;
          b := i;
        }
        if v <= leastVal && v < maxConnect {
          leastKey, leastVal := Some(k), v;
        }
      }
      ScanEnds(count, maxConnect, order, b, leastKey, leastVal);
      if leastKey.None? {
        return None;
      }
      url := Some(dict[leastKey.value]);
      count := count[leastKey.value := leastVal + 1];
    }
  }

  lemma ScanStarts(counts: Counts, maxConnect: nat, order: seq<string>)
    requires Enumerates(order, counts)
    ensures Scanned(counts, maxConnect, order, 0, 0, None, -1)
  {}

  lemma ScanEnds(counts: Counts, maxConnect: nat, order: seq<string>, b: nat, leastKey: Option<string>, leastVal: int)
    requires Enumerates(order, counts) && Scanned(counts, maxConnect, order, |order|, b, leastKey, leastVal)
    ensures leastKey.Some? ==> leastKey.value in counts
    ensures !Misled(counts, order) ==>
              && (leastKey.None? <==> Saturated(counts, maxConnect))
              && (leastKey.Some? ==>
                    LeastLoaded(counts, maxConnect, leastKey.value) && leastVal == counts[leastKey.value])
    ensures Misled(counts, order) ==>
              && leastKey.Some?
              && if counts[leastKey.value] == -1 then leastVal >= maxConnect
                 else counts[leastKey.value] >= 0 && leastVal == counts[leastKey.value]
  {
    forall k | k in counts ensures exists j :: 0 <= j < |order| && order[j] == k {
      assert k in order;
    }
    if b > 0 && leastVal >= 0 {
      assert counts[order[b - 1]] == -1 && counts[order[|order| - 1]] >= 0;
    }
  }

  // ----- the downloads -----

  /** The counts together with the downloads under way, one per granted source. */
  datatype System = System(counts: Counts, pending: multiset<string>)

  datatype Event =
    | Announce(url: string)                // the ringmaster offers a tarball
    | Grant(source: string)                // getTarList answered a hodring
    | Finish(url: string, source: string)  // that hodring offers its copy

  function Apply(s: System, e: Event): System {
    match e
    case Announce(url) => s.(counts := Registered(s.counts, url, "").0)
    case Grant(k) =>
      if k in s.counts then System(s.counts[k := s.counts[k] + 1], s.pending + multiset{k}) else s
    case Finish(url, k) =>
      var (counts, ok) := Registered(s.counts, url, k);
      System(counts, if ok then s.pending - multiset{k} else s.pending)
  }

  function After(es: seq<Event>): System {
    if es == [] then System(map[], multiset{}) else Apply(After(es[..|es| - 1]), es[|es| - 1])
  }

  /** Each count is the number of unfinished downloads, within 0 and max-connect. */
  ghost predicate Balanced(maxConnect: nat, s: System) {
    && "" !in s.counts
    && (forall k | k in s.counts :: s.counts[k] == s.pending[k] && 0 <= s.counts[k] <= maxConnect)
    && forall k | k in s.pending :: k in s.counts
  }

  /** An offered address is a real one and has no downloads under way; a grant is for a
      source with room; a hodring that finishes had been granted its source. */
  ghost predicate Harmless(maxConnect: nat, s: System, e: Event) {
    match e
    case Announce(url) => url != "" && s.pending[url] == 0
    case Grant(k) => k in s.counts ==> s.counts[k] < maxConnect
    case Finish(url, k) =>
      && url != "" && s.pending[url] == 0
      && (k in s.pending || k == "" || (k != url && k !in s.counts))
  }

  /** A count moves away from the downloads, or past its bounds, exactly when the
      event is not harmless. */
  lemma BalanceKeptExactly(maxConnect: nat, s: System, e: Event)
    requires Balanced(maxConnect, s)
    ensures Balanced(maxConnect, Apply(s, e)) <==> Harmless(maxConnect, s, e)
  {
    match e
    case Announce(url) => OfferKeeps(maxConnect, s, url);
    case Grant(k) => GrantKeeps(maxConnect, s, k);
    case Finish(url, k) => FinishedKeeps(maxConnect, s, url, k);
  }

  lemma FinishedKeeps(maxConnect: nat, s: System, url: string, k: string)
    requires Balanced(maxConnect, s)
    ensures Balanced(maxConnect, Apply(s, Finish(url, k))) <==> Harmless(maxConnect, s, Finish(url, k))
  {
    hide Balanced;
    NoEmptySource(maxConnect, s);
    var c, t := s.counts[url := 0], Apply(s, Finish(url, k));
    if k == "" || k !in c {
      assert t == s.(counts := c);
      OfferKeeps(maxConnect, s, url);
    } else {
      assert t == System(c[k := c[k] - 1], s.pending - multiset{k});
      FinishKeeps(maxConnect, s, url, k);
    }
  }

  lemma NoEmptySource(maxConnect: nat, s: System)
    requires Balanced(maxConnect, s)
    ensures s.pending - multiset{""} == s.pending && forall k | k in s.pending :: k in s.counts && k != ""
  {}

  lemma GrantKeeps(maxConnect: nat, s: System, k: string)
    requires Balanced(maxConnect, s)
    ensures Balanced(maxConnect, Apply(s, Grant(k))) <==> Harmless(maxConnect, s, Grant(k))
  {
    if k in s.counts {
      assert Apply(s, Grant(k)).counts[k] == s.counts[k] + 1;
    }
  }

  lemma OfferKeeps(maxConnect: nat, s: System, url: string)
    requires Balanced(maxConnect, s)
    ensures Balanced(maxConnect, s.(counts := s.counts[url := 0])) <==> url != "" && s.pending[url] == 0
  {
    var t := s.(counts := s.counts[url := 0]);
    assert t.counts[url] == 0;
  }

  lemma FinishKeeps(maxConnect: nat, s: System, url: string, k: string)
    requires Balanced(maxConnect, s) && k != "" && k in s.counts[url := 0]
    ensures var c := s.counts[url := 0];
            Balanced(maxConnect, System(c[k := c[k] - 1], s.pending - multiset{k}))
            <==> url != "" && s.pending[url] == 0 && k in s.pending
  {
    var c := s.counts[url := 0];
    var t := System(c[k := c[k] - 1], s.pending - multiset{k});
    assert t.counts[k] == c[k] - 1 && url in t.counts;
    if url != k {
      assert t.counts[url] == 0 && t.pending[url] == s.pending[url];
    }
  }

  ghost predicate BalancedThroughout(maxConnect: nat, es: seq<Event>) {
    forall i | 0 <= i <= |es| :: Balanced(maxConnect, After(es[..i]))
  }

  ghost predicate HarmlessThroughout(maxConnect: nat, es: seq<Event>) {
    forall i | 0 <= i < |es| :: Harmless(maxConnect, After(es[..i]), es[i])
  }

  lemma AfterNext(es: seq<Event>, i: nat)
    requires i < |es|
    ensures After(es[..i + 1]) == Apply(After(es[..i]), es[i])
  {
    assert es[..i + 1][..i] == es[..i];
  }

  lemma {:induction false} BalancedUpTo(maxConnect: nat, es: seq<Event>, i: nat)
    requires i <= |es| && HarmlessThroughout(maxConnect, es)
    ensures Balanced(maxConnect, After(es[..i]))
  {
    if i > 0 {
      BalancedUpTo(maxConnect, es, i - 1);
      AfterNext(es, i - 1);
      BalanceKeptExactly(maxConnect, After(es[..i - 1]), es[i - 1]);
    }
  }

  /** Over whole runs: the counts are the unfinished downloads at every moment exactly
      when every event is harmless where it happens. Then, if all sources are full, as
      many downloads as they can take are under way. */
  lemma CountsArePending(maxConnect: nat, es: seq<Event>)
    ensures BalancedThroughout(maxConnect, es) <==> HarmlessThroughout(maxConnect, es)
    ensures var s := After(es);
            BalancedThroughout(maxConnect, es) && Saturated(s.counts, maxConnect) ==>
              && (forall k | k in s.counts :: s.pending[k] == maxConnect)
              && (s.counts != map[] && maxConnect >= 1 ==> s.pending != multiset{})
  {
    hide After, Apply, Harmless;
    assert es[..|es|] == es;
    if BalancedThroughout(maxConnect, es) {
      forall i | 0 <= i < |es| ensures Harmless(maxConnect, After(es[..i]), es[i]) {
        assert Balanced(maxConnect, After(es[..i])) && Balanced(maxConnect, After(es[..i + 1]));
        AfterNext(es, i);
        BalanceKeptExactly(maxConnect, After(es[..i]), es[i]);
      }
      FullMeansBusy(maxConnect, After(es));
    }
    if HarmlessThroughout(maxConnect, es) {
      forall i | 0 <= i <= |es| ensures Balanced(maxConnect, After(es[..i])) {
        BalancedUpTo(maxConnect, es, i);
      }
    }
  }

  lemma FullMeansBusy(maxConnect: nat, s: System)
    requires Balanced(maxConnect, s)
    ensures Saturated(s.counts, maxConnect) ==>
              && (forall k | k in s.counts :: s.pending[k] == maxConnect)
              && (s.counts != map[] && maxConnect >= 1 ==> s.pending != multiset{})
  {
    if Saturated(s.counts, maxConnect) && s.counts != map[] && maxConnect >= 1 {
      var k :| k in s.counts;
      assert k in s.pending;
    }
  }

  /** Hodrings that finish once for each grant and offer addresses nobody offered
      before, and a ringmaster that grants least-loaded sources. */
  ghost predicate Disciplined(maxConnect: nat, s: System, e: Event) {
    match e
    case Announce(url) => url !in s.counts && url != ""
    case Grant(k) => LeastLoaded(s.counts, maxConnect, k)
    case Finish(url, k) => url !in s.counts && url != "" && k in s.pending
  }

  /** Discipline is enough. */
  lemma {:induction false} DisciplineBalances(maxConnect: nat, es: seq<Event>, i: nat)
    requires i <= |es| && forall j | 0 <= j < |es| :: Disciplined(maxConnect, After(es[..j]), es[j])
    ensures Balanced(maxConnect, After(es[..i]))
  {
    if i > 0 {
      DisciplineBalances(maxConnect, es, i - 1);
      AfterNext(es, i - 1);
      BalanceKeptExactly(maxConnect, After(es[..i - 1]), es[i - 1]);
      assert Disciplined(maxConnect, After(es[..i - 1]), es[i - 1]);
    }
  }

  /** Without it: an address offered again while a hodring downloads from it forgets the
      download, and its count ends at -1. A scan that meets it first is misled, with the
      consequences stated for `GetTarList`. */
  lemma ReofferGoesNegative(url: string, copy: string) returns (es: seq<Event>)
    requires url != copy && url != "" && copy != ""
    ensures var s := After(es);
            && s.counts == map[url := -1, copy := 0] && s.pending == multiset{}
            && Enumerates([url, copy], s.counts) && Misled(s.counts, [url, copy])
    ensures |es| == 4 && After(es[..3]).pending == multiset{url} && !Harmless(1, After(es[..2]), es[2])
  {
    es := [Announce(url), Grant(url), Announce(url), Finish(copy, url)];
    ReofferSteps(url, copy);
    hide Apply, Misled, Enumerates;
    assert es[..0] == [] && es[..4] == es;
    AfterNext(es, 0);
    AfterNext(es, 1);
    AfterNext(es, 2);
    AfterNext(es, 3);
    MisledHere(url, copy);
  }

  lemma ReofferSteps(url: string, copy: string)
    requires url != copy && url != "" && copy != ""
    ensures Apply(System(map[], multiset{}), Announce(url)) == System(map[url := 0], multiset{})
    ensures Apply(System(map[url := 0], multiset{}), Grant(url)) == System(map[url := 1], multiset{url})
    ensures Apply(System(map[url := 1], multiset{url}), Announce(url)) == System(map[url := 0], multiset{url})
    ensures Apply(System(map[url := 0], multiset{url}), Finish(copy, url))
         == System(map[url := -1, copy := 0], multiset{})
    ensures !Harmless(1, System(map[url := 1], multiset{url}), Announce(url))
  {}

  lemma MisledHere(url: string, copy: string)
    requires url != copy
    ensures var counts: Counts := map[url := -1, copy := 0];
            Enumerates([url, copy], counts) && Misled(counts, [url, copy])
  {
    var counts: Counts := map[url := -1, copy := 0];
    assert [url, copy][0] == url && [url, copy][1] == copy;
    assert url in counts && counts[url] == -1;
  }
}
