/** What the ringmaster reads out of a hodring's report (parseEquals of hodlib/Common/util.py
    on what hodRing.py filled in), against the configuration the hodring uses. */
module HodReports {
  import opened Common
  import opened HodParams
  import opened HodRing
  import Clients
  import Handouts
  import Ringmaster

  // ----- one attribute -----

  lemma {:induction false} ListedFront(k: string, items: seq<string>)
    requires items != []
    ensures Listed(k, items) == Item(k, items[0]) + Listed(k, items[1..])
    decreases |items|
  {
    hide Item;
    var n := |items| - 1;
    if n == 0 {
      assert items[..0] == [] && items[1..] == [] && Listed(k, []) == "";
    } else {
      ListedFront(k, items[..n]);
      assert items[..n][1..] == items[1..][..n - 1] && items[1..][n - 1] == items[n];
      var head, mid, last := Item(k, items[0]), Listed(k, items[1..][..n - 1]), Item(k, items[n]);
      assert head + mid + last == head + (mid + last);
    }
  }

  /** What stands behind the key and '=': the string; for a list the first item, and the
      rest of the list with its keys. */
  function Text(k: string, v: Val): string {
    match v
    case One(text) => text
    case Many(items) =>
      if items == [] then "" else if |items| == 1 then items[0] else items[0] + "," + Pair(k, Many(items[1..]))
  }

  /** A key is reported with the text of its value, except that an empty list leaves
      nothing at all. */
  lemma PairIs(k: string, v: Val)
    ensures Pair(k, v) == if v == Many([]) then "" else k + "=" + Text(k, v)
  {
    if v.Many? && |v.items| == 1 {
      PairOfOne(k, v.items[0]);
      assert v.items == [v.items[0]];
    } else if v.Many? && v.items != [] {
      hide Listed;
      PairOfMore(k, v.items);
    }
  }

  lemma PairOfOne(k: string, item: string)
    ensures Pair(k, Many([item])) == k + "=" + item
  {
    assert [item][..0] == [] && Listed(k, [item][..0]) == "";
    assert Listed(k, [item]) == "" + Item(k, item) == Item(k, item);
    ItemParts(k, item, "");
    hide Item, Listed;
  }

  lemma PairOfMore(k: string, items: seq<string>)
    requires |items| > 1
    ensures Pair(k, Many(items)) == k + "=" + (items[0] + "," + Pair(k, Many(items[1..])))
  {
    hide Item, Listed;
    ListedFront(k, items);
    ListedFront(k, items[1..]);
    ItemParts(k, items[1], "");
    var rest := Listed(k, items[1..]);
    InitOfConcat(Item(k, items[0]), rest);
    ItemParts(k, items[0], rest[..|rest| - 1]);
  }

  lemma ItemParts(k: string, item: string, more: string)
    ensures Item(k, item) != "" && Item(k, item)[..|Item(k, item)| - 1] == k + "=" + item
    ensures Item(k, item) + more == k + "=" + (item + "," + more)
  {}

  lemma InitOfConcat(a: string, b: string)
    requires b != ""
    ensures (a + b)[..|a + b| - 1] == a + b[..|b| - 1]
  {}

  lemma FillsNoList(v: Val, host: string, port: nat)
    ensures (v == Many([]) <==> Final(v, host, port) == Many([])) && (v == Many([]) <==> WithPort(v, port) == Many([]))
  {}

  lemma ReadEntries(list: seq<string>, k: string, v: Val, host: string, port: nat)
    requires ParseEquals(list).Some? && '=' !in k && v != Many([])
    ensures ParseEquals(list + Entries(k, v, host, port))
         == Some(ParseEquals(list).value[k := Upto(Text(k, Final(v, host, port)), '=')])
  {
    hide ParseEquals, Decimal, Upto, SecondPiece, Text, Pair, WithAddress, WithPort;
    FillsNoList(v, host, port);
    var a, f := Pair(k, WithPort(v, port)), Pair(k, Final(v, host, port));
    PairIs(k, WithPort(v, port));
    PairIs(k, Final(v, host, port));
    PairRead(k, Text(k, WithPort(v, port)));
    PairRead(k, Text(k, Final(v, host, port)));
    ReadMore(list, a);
    var m := ParseEquals(list).value;
    var x, y := Upto(Text(k, WithPort(v, port)), '='), Upto(Text(k, Final(v, host, port)), '=');
    assert m[k := x][k := x] == m[k := x] && m[k := x][k := y] == m[k := y];
    if k == TRACKER {
      ReadMore(list + [a], a);
      ReadMore(list + [a] + [a], f);
      assert list + Entries(k, v, host, port) == list + [a] + [a] + [f];
    } else {
      ReadMore(list + [a], f);
      assert list + Entries(k, v, host, port) == list + [a] + [f];
    }
  }

  // ----- all attributes -----

  /** The report as a dictionary. */
  function Report(attrs: seq<Attr>, host: string, ports: seq<nat>): map<string, string>
    requires |ports| == |attrs|
  {
    if attrs == [] then map[]
    else
      var n := |attrs| - 1;
      Report(attrs[..n], host, ports[..n])
        [attrs[n].0 := Upto(Text(attrs[n].0, Final(attrs[n].1, host, ports[n])), '=')]
  }

  ghost predicate NoEmptyList(attrs: seq<Attr>) {
    forall i | 0 <= i < |attrs| :: attrs[i].1 != Many([])
  }

  lemma {:induction false} ReportRead(attrs: seq<Attr>, host: string, ports: seq<nat>)
    requires |ports| == |attrs| && forall i | 0 <= i < |attrs| :: '=' !in attrs[i].0
    ensures ParseEquals(AllEntries(attrs, host, ports))
         == if NoEmptyList(attrs) then Some(Report(attrs, host, ports)) else None
    decreases |attrs|
  {
    hide Entries, Final, Upto, SecondPiece, Text;
    if attrs == [] {
      assert ParseEquals([]) == Some(map[]);
    } else {
      var n := |attrs| - 1;
      var before, last := AllEntries(attrs[..n], host, ports[..n]), attrs[n];
      ReportRead(attrs[..n], host, ports[..n]);
      NoEmptyMore(attrs);
      if last.1 == Many([]) {
        EmptyListUnread(last.0, host, ports[n]);
        hide ParseEquals;
        ParseEqualsConcat(before, Entries(last.0, last.1, host, ports[n]));
      } else if NoEmptyList(attrs[..n]) {
        hide ParseEquals;
        ReadEntries(before, last.0, last.1, host, ports[n]);
      } else {
        hide ParseEquals;
        ParseEqualsConcat(before, Entries(last.0, last.1, host, ports[n]));
      }
    }
  }

  lemma NoEmptyMore(attrs: seq<Attr>)
    requires attrs != []
    ensures NoEmptyList(attrs) <==> NoEmptyList(attrs[..|attrs| - 1]) && attrs[|attrs| - 1].1 != Many([])
  {
    var n := |attrs| - 1;
    assert forall i | 0 <= i < n :: attrs[..n][i] == attrs[i];
  }

  /** An empty list is reported as an entry without '=', which cannot be read. */
  lemma EmptyListUnread(k: string, host: string, port: nat)
    ensures ParseEquals(Entries(k, Many([]), host, port)).None?
  {
    var es := Entries(k, Many([]), host, port);
    assert Pair(k, Many([])) == "" && es[0] == "";
    ParseEqualsExactly(es);
  }

  lemma {:induction false} ReportValues(attrs: seq<Attr>, host: string, ports: seq<nat>)
    requires |ports| == |attrs| && DistinctKeys(attrs)
    ensures forall i | 0 <= i < |attrs| ::
              && attrs[i].0 in Report(attrs, host, ports)
              && Report(attrs, host, ports)[attrs[i].0]
                 == Upto(Text(attrs[i].0, Final(attrs[i].1, host, ports[i])), '=')
    ensures forall k | k in Report(attrs, host, ports) :: exists i :: 0 <= i < |attrs| && attrs[i].0 == k
    decreases |attrs|
  {
    hide Final, Upto, Text;
    if attrs != [] {
      var n := |attrs| - 1;
      ReportValues(attrs[..n], host, ports[..n]);
      assert forall i | 0 <= i < n :: attrs[..n][i] == attrs[i] && ports[..n][i] == ports[i];
      forall k | k in Report(attrs, host, ports) ensures exists i :: 0 <= i < |attrs| && attrs[i].0 == k {
        if k in Report(attrs[..n], host, ports[..n]) {
          var i :| 0 <= i < n && attrs[..n][i].0 == k;
          assert attrs[i].0 == k;
        }
      }
    }
  }

  // ----- a whole command -----

  ghost predicate PlainDesc(d: Desc) {
    d.Valid() && forall k | k in d.Merged() :: '=' !in k
  }

  ghost predicate Readable(d: Desc) {
    PlainDesc(d) && forall k | k in d.Merged() :: d.Merged()[k] != Many([])
  }

  /** The text of a key's final value. */
  ghost function FinalText(d: Desc, host: string, ports: seq<nat>, i: nat): string
    requires d.Valid() && |ports| == |AllItems(d)| && i < |ports|
  {
    Text(AllItems(d)[i].0, Final(AllItems(d)[i].1, host, ports[i]))
  }

  /** The report of a whole command can be read exactly when no attribute is an empty list.
      Reading it back gives each key of its configuration, and no other, its final value,
      cut at a '='. */
  lemma ReportReadBack(d: Desc, host: string, ports: seq<nat>)
    requires PlainDesc(d) && |ports| == |AllItems(d)|
    ensures var dict := ParseEquals(AllEntries(AllItems(d), host, ports));
            && (dict.Some? <==> Readable(d))
            && (dict.Some? ==>
                  && dict.value.Keys == d.Merged().Keys
                  && forall i | 0 <= i < |ports| ::
                       && AllItems(d)[i].0 in d.Merged() && AllItems(d)[i].1 == d.Merged()[AllItems(d)[i].0]
                       && dict.value[AllItems(d)[i].0] == Upto(FinalText(d, host, ports, i), '='))
  {
    var attrs := AllItems(d);
    ItemsAreMerged(d);
    hide AllItems, AllEntries, ParseEquals, Upto, Final, Text, Report, DistinctKeys;
    KeysPlain(d, attrs);
    ReportRead(attrs, host, ports);
    if Readable(d) {
      MergedValues(d, attrs, host, ports);
    }
  }

  /** Ports are reported as drawn: in decimal, for an address behind the host's name. So
      reported ports differ where the ports drawn do. */
  lemma PortsReadBack(d: Desc, host: string, ports: seq<nat>, i: nat)
    requires Readable(d) && '=' !in host && |ports| == |AllItems(d)| && i < |ports|
    ensures var dict := ParseEquals(AllEntries(AllItems(d), host, ports));
            var (k, v) := AllItems(d)[i];
            && dict.Some? && k in dict.value
            && (v == One("fillinport") ==> Numeral(dict.value[k], ports[i]))
            && (v == One("fillinhostport") ==>
                  exists p :: dict.value[k] == host + ":" + p && Numeral(p, ports[i]))
  {
    hide AllEntries, ParseEquals, Upto, AllItems, Final;
    ReportReadBack(d, host, ports);
    var (k, v) := AllItems(d)[i];
    FillsIn(v, host, ports[i]);
    var f := Final(v, host, ports[i]);
    if v == One("fillinport") {
      NumeralPlain(f.text, ports[i]);
      UptoWhole(f.text, '=');
    }
    if v == One("fillinhostport") {
      var p :| f.text == host + ":" + p && Numeral(p, ports[i]);
      NumeralPlain(p, ports[i]);
      UptoWhole(f.text, '=');
    }
  }

  lemma ReportedPortsDiffer(d: Desc, host: string, ports: seq<nat>, low: nat, high: nat, before: set<int>,
                            i: nat, j: nat)
    requires Readable(d) && '=' !in host && PortsOwn(AllItems(d), ports, low, high, before)
    requires i < j < |ports|
    requires AllItems(d)[i].1 == AllItems(d)[j].1
    requires AllItems(d)[i].1 == One("fillinport") || AllItems(d)[i].1 == One("fillinhostport")
    ensures var dict := ParseEquals(AllEntries(AllItems(d), host, ports));
            && dict.Some? && AllItems(d)[i].0 in dict.value && AllItems(d)[j].0 in dict.value
            && dict.value[AllItems(d)[i].0] != dict.value[AllItems(d)[j].0]
  {
    hide AllEntries, ParseEquals, AllItems;
    PortsReadBack(d, host, ports, i);
    PortsReadBack(d, host, ports, j);
    FillsIn(AllItems(d)[i].1, host, ports[i]);
    hide NeedsPort;
    var a := ParseEquals(AllEntries(AllItems(d), host, ports)).value[AllItems(d)[i].0];
    assert forall p, q | a == host + ":" + p && a == host + ":" + q :: p == a[|host| + 1..] == q;
  }

  lemma NumeralPlain(p: string, n: nat)
    requires Numeral(p, n)
    ensures '=' !in p && ':' !in p
  {}

  lemma KeysPlain(d: Desc, attrs: seq<Attr>)
    requires PlainDesc(d) && Covers(attrs, d.Merged())
    ensures NoEmptyList(attrs) <==> Readable(d)
    ensures forall i | 0 <= i < |attrs| :: '=' !in attrs[i].0 && attrs[i].0 in d.Merged()
  {
    if NoEmptyList(attrs) {
      forall k | k in d.Merged() ensures d.Merged()[k] != Many([]) {
        var i :| 0 <= i < |attrs| && attrs[i].0 == k;
        assert attrs[i].1 != Many([]);
      }
    }
  }

  lemma MergedValues(d: Desc, attrs: seq<Attr>, host: string, ports: seq<nat>)
    requires |ports| == |attrs| && DistinctKeys(attrs) && Covers(attrs, d.Merged())
    ensures var dict := Report(attrs, host, ports);
            && dict.Keys == d.Merged().Keys
            && forall i | 0 <= i < |attrs| ::
                 && attrs[i].0 in d.Merged() && attrs[i].1 == d.Merged()[attrs[i].0]
                 && dict[attrs[i].0] == Upto(Text(attrs[i].0, Final(attrs[i].1, host, ports[i])), '=')
  {
    hide Upto, Text, Final, Report, DistinctKeys;
    ReportValues(attrs, host, ports);
    var dict := Report(attrs, host, ports);
    forall k | k in d.Merged() ensures k in dict {
      var i :| 0 <= i < |attrs| && attrs[i].0 == k;
    }
    assert dict.Keys == d.Merged().Keys;
  }

  /** A key's value comes through the report whole exactly when its text holds no '='; of a
      list of several items, only the first does, with the key stuck to it. */
  lemma ReportWholeExactly(d: Desc, host: string, ports: seq<nat>, i: nat)
    requires Readable(d) && |ports| == |AllItems(d)| && i < |ports|
    ensures var dict := ParseEquals(AllEntries(AllItems(d), host, ports));
            var k := AllItems(d)[i].0;
            && dict.Some? && k in dict.value
            && (dict.value[k] == FinalText(d, host, ports, i) <==> '=' !in FinalText(d, host, ports, i))
    ensures AllItems(d)[i].1.Many? && |AllItems(d)[i].1.items| > 1 ==> '=' in FinalText(d, host, ports, i)
  {
    hide AllEntries, ParseEquals, Upto, AllItems;
    ReportReadBack(d, host, ports);
    UptoWhole(FinalText(d, host, ports, i), '=');
    hide Text;
    ListCut(AllItems(d)[i].0, AllItems(d)[i].1);
  }

  lemma ListCut(k: string, v: Val)
    ensures v.Many? && |v.items| > 1 ==> '=' in Text(k, v)
  {
    if v.Many? && |v.items| > 1 {
      hide Pair;
      var rest := Many(v.items[1..]);
      PairIs(k, rest);
      SignInside(v.items[0] + "," + k, Text(k, rest));
      assert Text(k, v) == v.items[0] + "," + k + "=" + Text(k, rest);
    }
  }

  lemma SignInside(a: string, b: string)
    ensures '=' in a + "=" + b
  {
    assert (a + "=" + b)[|a|] == '=';
  }

  /** A string without '=' is then also the value in the XML file, but for the prefix of the
      file system name and the system directory, and never a placeholder for a port. */
  lemma ReportMatchesXml(d: Desc, host: string, mrSysDir: string, ports: seq<nat>, i: nat)
    requires Readable(d) && |ports| == |AllItems(d)| && i < |ports|
    requires '=' !in host && AllItems(d)[i].1.One? && '=' !in AllItems(d)[i].1.text
    ensures var dict := ParseEquals(AllEntries(AllItems(d), host, ports));
            var k := AllItems(d)[i].0;
            && dict.Some? && k in dict.value
            && XmlOf(k, Final(AllItems(d)[i].1, host, ports[i]), mrSysDir)
               == [(k, (if k == "fs.default.name" then "hdfs://" else "")
                       + if dict.value[k] == "fillindir" then mrSysDir else dict.value[k])]
            && dict.value[k] != "fillinport" && dict.value[k] != "fillinhostport"
  {
    ReportWholeExactly(d, host, ports, i);
    FinalPlain(AllItems(d)[i].1.text, host, ports[i]);
    var f := Final(AllItems(d)[i].1, host, ports[i]);
    XmlExactly(AllItems(d)[i].0, f, mrSysDir);
    hide AllItems, AllEntries, ParseEquals, XmlOf, Decimal, Final;
    assert "" + f.text == f.text && "" + mrSysDir == mrSysDir;
  }

  lemma FinalPlain(v: string, host: string, port: nat)
    requires '=' !in host && '=' !in v
    ensures var f := Final(One(v), host, port);
            f.One? && '=' !in f.text && f.text != FILL_PORT && f.text != FILL_HOST_PORT
  {
    DecimalPlain(port);
    var d := Decimal(port);
    assert d[0] in d;
    var address := host + ":" + d;
    assert address[|host|] == ':';
    assert ':' !in FILL_PORT && ':' !in FILL_HOST_PORT;
  }

  // ----- from hodring to ringmaster -----

  /** When a hodring reports what it filled in, the ringmaster takes the address in the
      hodring's own configuration for that of the master, namenode or jobtracker, and counts
      it as up, exactly if its walk reaches the service: the hodring holds it, and any
      service before it in the walk that it holds too has been told all it asks for. */
  lemma MasterReportAccepted(cfg: Ringmaster.Config, st: Ringmaster.State, ring: string, k: Ringmaster.Kind,
                             name: string, key: string, infoKey: string,
                             d: Desc, host: string, ports: seq<nat>, i: nat)
    requires Clients.ServiceName(k, name) && Handouts.KeysOf(k, cfg.version, key, infoKey)
    requires Readable(d) && |ports| == |AllItems(d)| && i < |ports|
    requires AllItems(d)[i] == (key, One("fillinhostport")) && infoKey in d.Merged()
    requires '=' !in host && ':' !in host
    ensures var vals := AllEntries(AllItems(d), host, ports);
            var after := Ringmaster.Step(cfg, st, Ringmaster.Params(ring, vals));
            var s := Ringmaster.Of(after, k);
            if Handouts.Reached(cfg, st, ring, vals, k) then
              && s.initialized && s.failureCount == 0
              && exists p ::
                   && Numeral(p, ports[i])
                   && s.masterAddr == Some(host + ":" + p)
                   && Ringmaster.GetServiceAddr(cfg, after, name) == Some(host + ":" + p)
            else s == Ringmaster.Of(st, k)
  {
    hide AllItems, AllEntries, ParseEquals, Numeral, PieceCount, Handouts.KeysOf, Handouts.Reached;
    hide Ringmaster.Step, Ringmaster.InfoKey, Ringmaster.AddressKey, Ringmaster.GetServiceAddr;
    var vals := AllEntries(AllItems(d), host, ports);
    ReportReadBack(d, host, ports);
    PortsReadBack(d, host, ports, i);
    Handouts.TheKeys(k, cfg.version, key, infoKey);
    var p :| ParseEquals(vals).value[key] == host + ":" + p && Numeral(p, ports[i]);
    NumeralPlain(p, ports[i]);
    OneColon(host, p);
    Told(cfg, st, ring, vals, k, name, host + ":" + p);
  }

  lemma Told(cfg: Ringmaster.Config, st: Ringmaster.State, ring: string, vals: seq<string>, k: Ringmaster.Kind,
             name: string, address: string)
    requires Clients.ServiceName(k, name)
    requires ParseEquals(vals).Some? && Ringmaster.InfoKey(k, cfg.version) in ParseEquals(vals).value
    requires Ringmaster.AddressKey(k) in ParseEquals(vals).value
    requires ParseEquals(vals).value[Ringmaster.AddressKey(k)] == address && PieceCount(address, ':') == 2
    ensures var after := Ringmaster.Step(cfg, st, Ringmaster.Params(ring, vals));
            var s := Ringmaster.Of(after, k);
            if Handouts.Reached(cfg, st, ring, vals, k) then
              && s.initialized && s.failureCount == 0 && s.masterAddr == Some(address)
              && Ringmaster.GetServiceAddr(cfg, after, name) == s.masterAddr
            else s == Ringmaster.Of(st, k)
  {
    Handouts.ParamsExactly(cfg, st, ring, vals, k);
    hide ParseEquals, PieceCount, Ringmaster.SetMasterParams, Ringmaster.AddParams;
    assert Handouts.ReportOk(cfg, k, vals);
  }
}
