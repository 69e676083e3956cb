/** A hodring's configuration (hodlib/HodRing/hodRing.py): ports and addresses filled
    into the attributes of a command, written to XML and gathered for the report. */
module HodRing {
  import opened Common
  import opened HodParams

  /** "%d" */
  function Decimal(n: nat): string {
    if n < 10 then [Digit(n)] else Decimal(n / 10) + [Digit(n % 10)]
  }

  function Digit(n: nat): char
    requires n < 10
  {
    '0' + n as char
  }

  /** What a numeral stands for, read from the left behind the value so far. */
  function ReadOn(sofar: int, s: string): int
    decreases |s|
  {
    if s == "" then sofar else ReadOn(10 * sofar + (s[0] as int - '0' as int), s[1..])
  }

  /** `s` is the decimal numeral of `n`. */
  ghost predicate Numeral(s: string, n: nat) {
    && s != "" && (forall i | 0 <= i < |s| :: '0' <= s[i] <= '9')
    && (|s| > 1 ==> s[0] != '0')
    && ReadOn(0, s) == n
  }

  lemma {:induction false} ReadBehind(sofar: int, s: string, c: char)
    ensures ReadOn(sofar, s + [c]) == 10 * ReadOn(sofar, s) + (c as int - '0' as int)
    decreases |s|
  {
    if s == "" {
      assert s + [c] == [c] && [c][1..] == "";
    } else {
      assert (s + [c])[1..] == s[1..] + [c];
      ReadBehind(10 * sofar + (s[0] as int - '0' as int), s[1..], c);
    }
  }

  lemma {:induction false} DecimalReads(n: nat)
    ensures Numeral(Decimal(n), n)
    ensures n > 0 ==> Decimal(n)[0] != '0'
  {
    if n < 10 {
      ReadBehind(0, "", Digit(n));
      assert "" + [Digit(n)] == Decimal(n);
    } else {
      DecimalReads(n / 10);
      ReadBehind(0, Decimal(n / 10), Digit(n % 10));
    }
  }

  lemma DecimalPlain(n: nat)
    ensures Decimal(n) != [] && forall c | c in Decimal(n) :: '0' <= c <= '9'
  {
    DecimalReads(n);
  }

  // ----- ports -----

  /** A random number and whether binding to the port it selects works. */
  datatype Draw = Draw(random: int, bindable: bool)

  function Picks(d: Draw, low: nat, high: nat): nat
    requires low <= high
  {
    low + d.random % (high - low + 1)
  }

  /** The search for a port with `left` retries, and the draws behind it. None: no port
      found within the retries, or not yet within the draws (a port already used costs no
      retry). */
  function Search(used: set<int>, draws: seq<Draw>, low: nat, high: nat, left: nat): (Option<nat>, seq<Draw>)
    requires low <= high
    decreases |draws|
  {
    if left == 0 || draws == [] then (None, draws)
    else
      var n, rest := Picks(draws[0], low, high), draws[1..];
      if n in used then Search(used, rest, low, high, left)
      else if draws[0].bindable then (Some(n), rest)
      else Search(used, rest, low, high, left - 1)
  }

  /** The draws of ports not used yet. */
  function News(used: set<int>, draws: seq<Draw>, low: nat, high: nat): nat
    requires low <= high
  {
    if draws == [] then 0
    else (if Picks(draws[0], low, high) in used then 0 else 1) + News(used, draws[1..], low, high)
  }

  predicate Good(used: set<int>, d: Draw, low: nat, high: nat)
    requires low <= high
  {
    Picks(d, low, high) !in used && d.bindable
  }

  /** The port is that of the first draw, `i`, of one not used that can be bound, unless as
      many others not used as there are retries come before it. */
  lemma {:induction false} SearchFindsFirst(used: set<int>, draws: seq<Draw>, low: nat, high: nat, left: nat, i: nat)
    requires low <= high && i <= |draws| && forall j | 0 <= j < i :: !Good(used, draws[j], low, high)
    requires i == |draws| || Good(used, draws[i], low, high)
    ensures var (port, rest) := Search(used, draws, low, high, left);
            if i < |draws| && News(used, draws[..i], low, high) < left then
              port == Some(Picks(draws[i], low, high)) && rest == draws[i + 1..]
            else port == None
    decreases |draws|
  {
    if i > 0 && left > 0 {
      var n, more := Picks(draws[0], low, high), draws[1..];
      assert forall j | 0 <= j < i - 1 :: more[j] == draws[j + 1];
      SearchFindsFirst(used, more, low, high, if n in used then left else left - 1, i - 1);
      assert draws[..i][1..] == more[..i - 1];
      assert !Good(used, draws[0], low, high);
    }
  }

  lemma {:induction false} SearchParts(used: set<int>, draws: seq<Draw>, low: nat, high: nat, left: nat)
    requires low <= high
    ensures var (port, rest) := Search(used, draws, low, high, left);
            && |rest| <= |draws| && rest == draws[|draws| - |rest|..]
            && (port.Some? ==> low <= port.value <= high && port.value !in used)
    decreases |draws|
  {
    if left > 0 && draws != [] {
      SearchParts(used, draws[1..], low, high, left);
      SearchParts(used, draws[1..], low, high, left - 1);
    }
  }

  /** ServiceUtil.localPortUsed, with the random draws to come. */
  class PortPool {
    var used: set<int>
    var draws: seq<Draw>

    /** getUniqRandomPort. */
    method GetUniqRandomPort(low: nat, high: nat, retry: nat) returns (port: Option<nat>)
      requires low <= high
      modifies this
      ensures (port, draws) == Search(old(used), old(draws), low, high, retry)
      ensures port.Some? ==> low <= port.value <= high && port.value !in old(used) && used == old(used) + {port.value}
      ensures port.None? ==> used == old(used)
    {
      var left := retry;
      while left > 0 && draws != []
        invariant used == old(used)
        invariant Search(old(used), old(draws), low, high, retry) == Search(used, draws, low, high, left)
        decreases |draws|
      {
        var d := draws[0];
        draws := draws[1..];
        var n := low + d.random % (high - low + 1);
        if n in used {
          continue;
        }
        if d.bindable {
          used := used + {n};
          return Some(n);
        }
        left := left - 1;
      }
      return None;
    }
  }

  // ----- filling in -----

  const FILL_PORT := "fillinport"
  const FILL_HOST_PORT := "fillinhostport"
  const FILL_DIR := "fillindir"
  const TRACKER := "mapred.job.tracker"
  const FS_NAME := "fs.default.name"

  /** An attribute's value: a string, or a list or tuple of strings. */
  datatype Val = One(text: string) | Many(items: seq<string>)

  function WithPort(v: Val, port: nat): Val {
    if v == One(FILL_PORT) then One(Decimal(port)) else v
  }

  function WithAddress(v: Val, host: string, port: nat): Val {
    if v == One(FILL_HOST_PORT) then One(host + ":" + Decimal(port)) else v
  }

  /** The value an attribute ends up with. */
  function Final(v: Val, host: string, port: nat): Val {
    WithAddress(WithPort(v, port), host, port)
  }

  /** `f` is `v` with the port filled in where one is asked for. */
  ghost predicate FilledIn(v: Val, host: string, port: nat, f: Val) {
    if v == One("fillinport") then f.One? && Numeral(f.text, port)
    else if v == One("fillinhostport") then f.One? && exists p :: f.text == host + ":" + p && Numeral(p, port)
    else f == v
  }

  lemma FillsIn(v: Val, host: string, port: nat)
    ensures FilledIn(v, host, port, Final(v, host, port))
    ensures NeedsPort(v) <==> v == One("fillinport") || v == One("fillinhostport")
  {
    hide Numeral, Decimal;
    DecimalReads(port);
    assert v == One(FILL_PORT) ==> Final(v, host, port) == One(Decimal(port)) by {
      DecimalPlain(port);
      var d := Decimal(port);
      assert d[0] in d;
    }
  }

  predicate NeedsPort(v: Val) {
    v == One(FILL_PORT) || v == One(FILL_HOST_PORT)
  }

  function Item(k: string, item: string): string {
    k + "=" + item + ","
  }

  /** The items of a list, each behind the key, and a comma behind each. */
  function Listed(k: string, items: seq<string>): string {
    if items == [] then "" else Listed(k, items[..|items| - 1]) + Item(k, items[|items| - 1])
  }

  /** A key with its value, as it is reported; for a list without the last comma. */
  function Pair(k: string, v: Val): string {
    match v
    case One(text) => k + "=" + text
    case Many(items) => var s := Listed(k, items); if s == "" then "" else s[..|s| - 1]
  }

  method KeyValPair(k: string, v: Val) returns (keyValPair: string)
    ensures keyValPair == Pair(k, v)
  {
    keyValPair := "";
    if v.Many? {
      for i := 0 to |v.items|
        invariant keyValPair == Listed(k, v.items[..i])
      {
        assert v.items[..i + 1][..i] == v.items[..i];
        assert keyValPair + Item(k, v.items[i]) == keyValPair + k + "=" + v.items[i] + ",";
        keyValPair := keyValPair + k + "=" + v.items[i] + ",";
      }
      assert v.items[..|v.items|] == v.items;
      if keyValPair != "" {
        keyValPair := keyValPair[..|keyValPair| - 1];
      }
    } else {
      keyValPair := k + "=" + v.text;
    }
  }

  /** What createXML appends to filledInKeyVals for one attribute. */
  function Entries(k: string, v: Val, host: string, port: nat): seq<string> {
    [Pair(k, WithPort(v, port))]
    + (if k == TRACKER then [Pair(k, WithPort(v, port))] else [])
    + [Pair(k, Final(v, host, port))]
  }

  /** An attribute is reported before an address is filled in and after, the jobtracker's
      address twice before. */
  lemma EntriesExactly(k: string, v: Val, host: string, port: nat) returns (f: Val)
    ensures FilledIn(v, host, port, f)
    ensures var first := Pair(k, if v == One("fillinport") then f else v);
            Entries(k, v, host, port)
            == if k == "mapred.job.tracker" then [first, first, Pair(k, f)] else [first, Pair(k, f)]
  {
    FillsIn(v, host, port);
    f := Final(v, host, port);
    hide Pair, FilledIn;
    assert v == One("fillinport") ==> WithPort(v, port) == f by {
      DecimalPlain(port);
      var d := Decimal(port);
      assert d[0] in d;
    }
  }

  /** The value written to the XML file. */
  function XmlValue(k: string, final: string, mrSysDir: string): string {
    var v := if final == FILL_DIR then mrSysDir else final;
    if k == FS_NAME then "hdfs://" + v else v
  }

  type Property = (string, string)

  /** The elements of the XML file for one attribute, one per item of a list. */
  function XmlOf(k: string, final: Val, mrSysDir: string): seq<Property> {
    match final
    case One(text) => [(k, XmlValue(k, text, mrSysDir))]
    case Many(items) => seq(|items|, i requires 0 <= i < |items| => (k, items[i]))
  }

  /** What the XML file says under a key: an item each for a list, and for a string the
      string, or the system directory where that is asked for; the file system's name
      behind its scheme. */
  lemma XmlExactly(k: string, final: Val, mrSysDir: string)
    ensures final.Many? ==>
              && |XmlOf(k, final, mrSysDir)| == |final.items|
              && forall i | 0 <= i < |final.items| :: XmlOf(k, final, mrSysDir)[i] == (k, final.items[i])
    ensures final.One? ==> exists v ::
              && XmlOf(k, final, mrSysDir) == [(k, v)]
              && (final.text == "fillindir" && k != "fs.default.name" ==> v == mrSysDir)
              && (final.text != "fillindir" && k != "fs.default.name" ==> v == final.text)
              && (k == "fs.default.name" ==>
                    v == "hdfs://" + if final.text == "fillindir" then mrSysDir else final.text)
  {
    if final.One? {
      assert XmlOf(k, final, mrSysDir) == [(k, XmlValue(k, final.text, mrSysDir))];
    }
  }

  type Attr = (string, Val)

  function AllEntries(attrs: seq<Attr>, host: string, ports: seq<nat>): seq<string>
    requires |ports| == |attrs|
  {
    if attrs == [] then []
    else
      var n := |attrs| - 1;
      AllEntries(attrs[..n], host, ports[..n]) + Entries(attrs[n].0, attrs[n].1, host, ports[n])
  }

  function AllXml(attrs: seq<Attr>, host: string, mrSysDir: string, ports: seq<nat>): seq<Property>
    requires |ports| == |attrs|
  {
    if attrs == [] then []
    else
      var n := |attrs| - 1;
      AllXml(attrs[..n], host, mrSysDir, ports[..n]) + XmlOf(attrs[n].0, Final(attrs[n].1, host, ports[n]), mrSysDir)
  }

  /** What the report and the file hold for each attribute is its value filled in. */
  ghost predicate AllFilled(attrs: seq<Attr>, host: string, ports: seq<nat>)
    requires |ports| == |attrs|
  {
    forall i | 0 <= i < |attrs| :: FilledIn(attrs[i].1, host, ports[i], Final(attrs[i].1, host, ports[i]))
  }

  lemma FillsAll(attrs: seq<Attr>, host: string, ports: seq<nat>)
    requires |ports| == |attrs|
    ensures AllFilled(attrs, host, ports)
  {
    hide FilledIn, Final;
    forall i | 0 <= i < |attrs| ensures FilledIn(attrs[i].1, host, ports[i], Final(attrs[i].1, host, ports[i])) {
      FillsIn(attrs[i].1, host, ports[i]);
    }
  }

  /** The attributes that need one get ports of their own, in range and unused so far. */
  ghost predicate PortsOwn(attrs: seq<Attr>, ports: seq<nat>, low: nat, high: nat, before: set<int>) {
    && |ports| == |attrs|
    && (forall i | 0 <= i < |attrs| && NeedsPort(attrs[i].1) :: low <= ports[i] <= high && ports[i] !in before)
    && forall i, j | 0 <= i < j < |attrs| && NeedsPort(attrs[i].1) && NeedsPort(attrs[j].1) :: ports[i] != ports[j]
  }

  /** Ports drawn later are new to those drawn before. */
  lemma PortsConcat(a: seq<Attr>, p: seq<nat>, b: seq<Attr>, q: seq<nat>, low: nat, high: nat,
                    before: set<int>, used: set<int>)
    requires PortsOwn(a, p, low, high, before) && PortsOwn(b, q, low, high, used)
    requires before <= used && forall i | 0 <= i < |a| && NeedsPort(a[i].1) :: p[i] in used
    ensures PortsOwn(a + b, p + q, low, high, before)
  {
    hide NeedsPort;
    var c, r := a + b, p + q;
    forall i | 0 <= i < |c| && NeedsPort(c[i].1) ensures low <= r[i] <= high && r[i] !in before {
      if i >= |a| {
        assert c[i] == b[i - |a|] && r[i] == q[i - |a|];
      }
    }
    forall i, j | 0 <= i < j < |c| && NeedsPort(c[i].1) && NeedsPort(c[j].1) ensures r[i] != r[j] {
      if i >= |a| {
        assert c[i] == b[i - |a|] && r[i] == q[i - |a|];
      }
      if j >= |a| {
        assert c[j] == b[j - |a|] && r[j] == q[j - |a|];
      }
    }
  }

  lemma {:induction false} EntriesConcat(a: seq<Attr>, p: seq<nat>, b: seq<Attr>, q: seq<nat>, host: string)
    requires |p| == |a| && |q| == |b|
    ensures AllEntries(a + b, host, p + q) == AllEntries(a, host, p) + AllEntries(b, host, q)
    decreases |b|
  {
    hide Entries;
    if b == [] {
      assert a + b == a && p + q == p;
      assert AllEntries(a, host, p) + [] == AllEntries(a, host, p);
    } else {
      var n, c, r := |b| - 1, a + b, p + q;
      EntriesConcat(a, p, b[..n], q[..n], host);
      assert c[..|c| - 1] == a + b[..n] && r[..|c| - 1] == p + q[..n] && c[|c| - 1] == b[n] && r[|c| - 1] == q[n];
      var last := Entries(b[n].0, b[n].1, host, q[n]);
      assert AllEntries(a, host, p) + AllEntries(b[..n], host, q[..n]) + last
          == AllEntries(a, host, p) + (AllEntries(b[..n], host, q[..n]) + last);
    }
  }

  lemma {:induction false} XmlConcat(a: seq<Attr>, p: seq<nat>, b: seq<Attr>, q: seq<nat>, host: string,
                                     mrSysDir: string)
    requires |p| == |a| && |q| == |b|
    ensures AllXml(a + b, host, mrSysDir, p + q) == AllXml(a, host, mrSysDir, p) + AllXml(b, host, mrSysDir, q)
    decreases |b|
  {
    hide XmlOf, Final;
    if b == [] {
      assert a + b == a && p + q == p;
      assert AllXml(a, host, mrSysDir, p) + [] == AllXml(a, host, mrSysDir, p);
    } else {
      var n, c, r := |b| - 1, a + b, p + q;
      XmlConcat(a, p, b[..n], q[..n], host, mrSysDir);
      assert c[..|c| - 1] == a + b[..n] && r[..|c| - 1] == p + q[..n] && c[|c| - 1] == b[n] && r[|c| - 1] == q[n];
      var last := XmlOf(b[n].0, Final(b[n].1, host, q[n]), mrSysDir);
      assert AllXml(a, host, mrSysDir, p) + AllXml(b[..n], host, mrSysDir, q[..n]) + last
          == AllXml(a, host, mrSysDir, p) + (AllXml(b[..n], host, mrSysDir, q[..n]) + last);
    }
  }

  lemma OneAttr(a: Attr, port: nat, host: string, mrSysDir: string, low: nat, high: nat, used: set<int>)
    ensures AllEntries([a], host, [port]) == Entries(a.0, a.1, host, port)
    ensures AllXml([a], host, mrSysDir, [port]) == XmlOf(a.0, Final(a.1, host, port), mrSysDir)
    ensures (NeedsPort(a.1) ==> low <= port <= high && port !in used) ==> PortsOwn([a], [port], low, high, used)
  {
    hide Entries, Final, XmlOf, NeedsPort;
    assert AllEntries([a][..0], host, [port][..0]) == [] && AllXml([a][..0], host, mrSysDir, [port][..0]) == [];
    assert [] + Entries(a.0, a.1, host, port) == Entries(a.0, a.1, host, port);
  }

  lemma NoneYet(low: nat, high: nat, used: set<int>, host: string, mrSysDir: string)
    ensures PortsOwn([], [], low, high, used)
    ensures AllEntries([], host, []) == [] && AllXml([], host, mrSysDir, []) == []
  {}

  ghost predicate PortsIn(attrs: seq<Attr>, ports: seq<nat>, used: set<int>) {
    |ports| == |attrs| && forall i | 0 <= i < |attrs| && NeedsPort(attrs[i].1) :: ports[i] in used
  }

  // ----- the attributes of a command -----

  /** `order` is an order in which the dictionary yields its keys. */
  ghost predicate Walks(order: seq<string>, m: map<string, Val>) {
    && (forall i, j | 0 <= i < j < |order| :: order[i] != order[j])
    && (forall k | k in order :: k in m) && forall k | k in m :: k in order
  }

  function Items(order: seq<string>, m: map<string, Val>): (r: seq<Attr>)
    requires forall k | k in order :: k in m
    ensures |r| == |order|
  {
    seq(|order|, i requires 0 <= i < |order| => (order[i], m[order[i]]))
  }

  /** What a command is described by: final attributes and attributes, and the orders
      in which those dictionaries, and that of the attributes not final, are walked. */
  datatype Desc = Desc(finalAttrs: map<string, Val>, attrs: map<string, Val>,
                       finalOrder: seq<string>, attrOrder: seq<string>, otherOrder: seq<string>) {
    ghost predicate Valid() {
      Walks(finalOrder, finalAttrs) && Walks(attrOrder, attrs) && Walks(otherOrder, Others())
    }

    ghost function Others(): map<string, Val> {
      map k | k in attrs && k !in finalAttrs :: attrs[k]
    }

    /** The command's configuration: a final attribute has the last word. */
    function Merged(): map<string, Val> {
      attrs + finalAttrs
    }
  }

  ghost function AllItems(d: Desc): seq<Attr>
    requires d.Valid()
  {
    Items(d.finalOrder, d.finalAttrs) + Items(d.otherOrder, d.Others())
  }

  ghost function EachItems(descs: seq<Desc>): (r: seq<seq<Attr>>)
    requires forall i | 0 <= i < |descs| :: descs[i].Valid()
    ensures |r| == |descs|
  {
    seq(|descs|, i requires 0 <= i < |descs| => AllItems(descs[i]))
  }

  /** The loop that leaves out what is final. */
  method OthersLoop(d: Desc) returns (attr: map<string, Val>)
    requires d.Valid()
    ensures attr == d.Others()
  {
    attr := map[];
    for i := 0 to |d.attrOrder|
      invariant forall k :: k in attr <==> k in d.attrOrder[..i] && k !in d.finalAttrs
      invariant forall k | k in attr :: k in d.attrs && attr[k] == d.attrs[k]
    {
      var k := d.attrOrder[i];
      assert k in d.attrOrder && d.attrOrder[..i + 1] == d.attrOrder[..i] + [k];
      if k !in d.finalAttrs {
        attr := attr[k := d.attrs[k]];
      }
    }
    assert d.attrOrder[..|d.attrOrder|] == d.attrOrder;
  }

  /** Both calls of createXML together see each key of the configuration once, with the
      value of the configuration. */
  lemma ItemsAreMerged(d: Desc)
    requires d.Valid()
    ensures DistinctKeys(AllItems(d)) && Covers(AllItems(d), d.Merged())
  {
    var all, n := AllItems(d), |d.finalOrder|;
    forall i | 0 <= i < |all|
      ensures all[i].0 in d.Merged() && all[i].1 == d.Merged()[all[i].0] && (i < n <==> all[i].0 in d.finalAttrs)
      ensures all[i].0 == if i < n then d.finalOrder[i] else d.otherOrder[i - n]
    {
      assert all[i].0 in if i < n then d.finalOrder else d.otherOrder;
    }
    forall k | k in d.Merged() ensures exists i :: 0 <= i < |all| && all[i].0 == k {
      if k in d.finalAttrs {
        var i :| 0 <= i < n && d.finalOrder[i] == k;
        assert all[i].0 == k;
      } else {
        assert k in d.Others();
        var i :| 0 <= i < |d.otherOrder| && d.otherOrder[i] == k;
        assert all[n + i].0 == k;
      }
    }
  }

  /** Every attribute has the dictionary's value, and every key of it an attribute. */
  ghost predicate Covers(attrs: seq<Attr>, m: map<string, Val>) {
    && (forall i | 0 <= i < |attrs| :: attrs[i].0 in m && attrs[i].1 == m[attrs[i].0])
    && forall k | k in m :: exists i :: 0 <= i < |attrs| && attrs[i].0 == k
  }

  ghost predicate DistinctKeys(attrs: seq<Attr>) {
    forall i, j | 0 <= i < j < |attrs| :: attrs[i].0 != attrs[j].0
  }

  const RETRIES: nat := 900

  /** The port drawn for an attribute, if it needs one, and the draws behind it. */
  function Drawn(v: Val, used: set<int>, draws: seq<Draw>, low: nat, high: nat): (Option<nat>, seq<Draw>)
    requires low <= high
  {
    if NeedsPort(v) then Search(used, draws, low, high, RETRIES) else (Some(0), draws)
  }

  /** The attribute cannot be filled in: a jobtracker address that is a list, or a port
      that the search does not find. */
  ghost predicate Unfillable(a: Attr, used: set<int>, draws: seq<Draw>, low: nat, high: nat)
    requires low <= high
  {
    || (a.0 == "mapred.job.tracker" && a.1.Many?)
    || ((a.1 == One("fillinport") || a.1 == One("fillinhostport")) && Search(used, draws, low, high, 900).0.None?)
  }

  /** So it is with some attribute, from some draw on. */
  ghost predicate CannotFill(attrs: seq<Attr>, used: set<int>, draws: seq<Draw>, low: nat, high: nat)
    requires low <= high
  {
    exists i, n :: 0 <= i < |attrs| && 0 <= n <= |draws| && Unfillable(attrs[i], used, draws[n..], low, high)
  }

  lemma StuckAt(attrs: seq<Attr>, i: nat, used: set<int>, draws: seq<Draw>, n: nat, low: nat, high: nat)
    requires low <= high && i < |attrs| && n <= |draws|
    requires (attrs[i].0 == TRACKER && attrs[i].1.Many?) || Drawn(attrs[i].1, used, draws[n..], low, high).0.None?
    ensures CannotFill(attrs, used, draws, low, high)
  {
    FillsIn(attrs[i].1, "", 0);
    hide Search, NeedsPort;
    assert Unfillable(attrs[i], used, draws[n..], low, high);
  }

  lemma StuckWithin(a: seq<Attr>, part: seq<Attr>, b: seq<Attr>, used: set<int>, draws: seq<Draw>, n: nat,
                    low: nat, high: nat)
    requires low <= high && n <= |draws| && CannotFill(part, used, draws[n..], low, high)
    ensures CannotFill(a + part + b, used, draws, low, high)
  {
    hide Unfillable;
    var i, k :| 0 <= i < |part| && 0 <= k <= |draws[n..]| && Unfillable(part[i], used, draws[n..][k..], low, high);
    assert (a + part + b)[|a| + i] == part[i] && draws[n..][k..] == draws[n + k..];
  }

  lemma DrawnParts(v: Val, used: set<int>, draws: seq<Draw>, low: nat, high: nat, n: nat)
    requires low <= high && n <= |draws|
    ensures var rest := Drawn(v, used, draws[n..], low, high).1;
            |rest| <= |draws| && rest == draws[|draws| - |rest|..]
  {
    SearchParts(used, draws[n..], low, high, RETRIES);
    var rest := Drawn(v, used, draws[n..], low, high).1;
    assert draws[n..][|draws| - n - |rest|..] == draws[|draws| - |rest|..];
  }

  class HadoopCommand {
    const host: string
    const mrSysDir: string
    const low: nat
    const high: nat
    var filledInKeyVals: seq<string>
    var xml: seq<Property>

    constructor (host: string, mrSysDir: string, low: nat, high: nat)
      ensures this.host == host && this.mrSysDir == mrSysDir && this.low == low && this.high == high
      ensures filledInKeyVals == [] && xml == []
    {
      this.host, this.mrSysDir, this.low, this.high := host, mrSysDir, low, high;
      filledInKeyVals, xml := [], [];
    }

    /** The body of createXML's loop for one attribute; fails without a port, and on a
        list of jobtracker addresses, which cannot be added to a string. */
    method FillIn(k: string, value: Val, pool: PortPool) returns (ok: bool, ghost port: nat)
      requires low <= high
      modifies this, pool
      ensures old(pool.used) <= pool.used
      ensures ok <==>
                && !(k == "mapred.job.tracker" && value.Many?)
                && Drawn(value, old(pool.used), old(pool.draws), low, high).0.Some?
      ensures pool.draws == Drawn(value, old(pool.used), old(pool.draws), low, high).1
      ensures !ok ==> pool.used == old(pool.used)
      ensures ok && NeedsPort(value) ==> low <= port <= high && port !in old(pool.used) && port in pool.used
      ensures ok ==>
                && filledInKeyVals == old(filledInKeyVals) + Entries(k, value, host, port)
                && xml == old(xml) + XmlOf(k, Final(value, host, port), mrSysDir)
    {
      hide Pair, Search, XmlOf;
      var v := value;
      port := 0;
      if v == One(FILL_PORT) {
        var p := pool.GetUniqRandomPort(low, high, RETRIES);
        if p.None? {
          return false, 0;
        }
        port := p.value;
        v := One(Decimal(p.value));
        DecimalPlain(port);
        assert v.text[0] in v.text;
      }
      ghost var start := filledInKeyVals;
      var keyValPair := KeyValPair(k, v);
      filledInKeyVals := filledInKeyVals + [keyValPair];
      if k == TRACKER {
        if v.Many? {
          return false, 0;
        }
        keyValPair := KeyValPair(k, v);
        filledInKeyVals := filledInKeyVals + [keyValPair];
      }
      if v == One(FILL_HOST_PORT) {
        var p := pool.GetUniqRandomPort(low, high, RETRIES);
        if p.None? {
          return false, 0;
        }
        port := p.value;
        v := One(host + ":" + Decimal(p.value));
      }
      assert v == Final(value, host, port);
      keyValPair := KeyValPair(k, v);
      filledInKeyVals := filledInKeyVals + [keyValPair];
      assert filledInKeyVals == start + Entries(k, value, host, port);
      WriteXml(k, v);
      ok := true;
    }

    /** The rest of the loop's body: the elements of the file. */
    method WriteXml(k: string, final: Val)
      modifies this`xml
      ensures xml == old(xml) + XmlOf(k, final, mrSysDir)
    {
      var v := if final == One(FILL_DIR) then One(mrSysDir) else final;
      ghost var before := xml;
      if v.Many? {
        for i := 0 to |v.items|
          invariant xml == before + XmlOf(k, v, mrSysDir)[..i]
        {
          xml := xml + [(k, v.items[i])];
        }
        assert XmlOf(k, v, mrSysDir)[..|v.items|] == XmlOf(k, v, mrSysDir);
      } else {
        xml := xml + [(k, if k == FS_NAME then "hdfs://" + v.text else v.text)];
      }
    }

    /** createXML; false when no port can be found or a jobtracker address is a list. */
    method CreateXml(attrs: seq<Attr>, pool: PortPool) returns (ok: bool, ghost ports: seq<nat>)
      requires low <= high
      modifies this, pool
      ensures old(pool.used) <= pool.used
      ensures |pool.draws| <= |old(pool.draws)| && pool.draws == old(pool.draws)[|old(pool.draws)| - |pool.draws|..]
      ensures !ok ==> CannotFill(attrs, pool.used, old(pool.draws), low, high)
      ensures ok ==> forall i | 0 <= i < |attrs| && attrs[i].0 == "mapred.job.tracker" :: attrs[i].1.One?
      ensures ok ==>
                && PortsOwn(attrs, ports, low, high, old(pool.used))
                && PortsIn(attrs, ports, pool.used)
                && AllFilled(attrs, host, ports)
                && filledInKeyVals == old(filledInKeyVals) + AllEntries(attrs, host, ports)
                && xml == old(xml) + AllXml(attrs, host, mrSysDir, ports)
    {
      hide Entries, Final, XmlOf, PortsOwn, AllXml, AllEntries, NeedsPort, AllFilled, CannotFill, Drawn;
      NoneYet(low, high, pool.used, host, mrSysDir);
      ports := [];
      assert attrs[..0] == [];
      for i := 0 to |attrs|
        invariant |ports| == i && old(pool.used) <= pool.used
        invariant |pool.draws| <= |old(pool.draws)| && pool.draws == old(pool.draws)[|old(pool.draws)| - |pool.draws|..]
        invariant forall j | 0 <= j < i && attrs[j].0 == "mapred.job.tracker" :: attrs[j].1.One?
        invariant PortsOwn(attrs[..i], ports, low, high, old(pool.used))
        invariant forall j | 0 <= j < i && NeedsPort(attrs[j].1) :: ports[j] in pool.used
        invariant filledInKeyVals == old(filledInKeyVals) + AllEntries(attrs[..i], host, ports)
        invariant xml == old(xml) + AllXml(attrs[..i], host, mrSysDir, ports)
      {
        ghost var usedNow := pool.used;
        ghost var n := |old(pool.draws)| - |pool.draws|;
        DrawnParts(attrs[i].1, pool.used, old(pool.draws), low, high, n);
        var done, port := FillIn(attrs[i].0, attrs[i].1, pool);
        if !done {
          StuckAt(attrs, i, pool.used, old(pool.draws), n, low, high);
          return false, [];
        }
        OneAttr(attrs[i], port, host, mrSysDir, low, high, usedNow);
        assert attrs[..i + 1] == attrs[..i] + [attrs[i]];
        PortsConcat(attrs[..i], ports, [attrs[i]], [port], low, high, old(pool.used), usedNow);
        EntriesConcat(attrs[..i], ports, [attrs[i]], [port], host);
        XmlConcat(attrs[..i], ports, [attrs[i]], [port], host, mrSysDir);
        ports := ports + [port];
      }
      assert attrs[..|attrs|] == attrs;
      FillsAll(attrs, host, ports);
      ok := true;
    }

    /** _createHadoopSiteXml: the final attributes, then the others that are not final. */
    method CreateHadoopSiteXml(d: Desc, pool: PortPool) returns (ok: bool, ghost ports: seq<nat>)
      requires low <= high && d.Valid()
      modifies this, pool
      ensures old(pool.used) <= pool.used
      ensures |pool.draws| <= |old(pool.draws)| && pool.draws == old(pool.draws)[|old(pool.draws)| - |pool.draws|..]
      ensures !ok ==> CannotFill(AllItems(d), pool.used, old(pool.draws), low, high)
      ensures ok ==>
                && |ports| == |AllItems(d)|
                && PortsOwn(AllItems(d), ports, low, high, old(pool.used)) && PortsIn(AllItems(d), ports, pool.used)
                && AllFilled(AllItems(d), host, ports)
                && filledInKeyVals == old(filledInKeyVals) + AllEntries(AllItems(d), host, ports)
                && xml == old(xml) + AllXml(AllItems(d), host, mrSysDir, ports)
    {
      hide PortsOwn, AllXml, AllEntries, NeedsPort, AllFilled, CannotFill;
      ghost var first := [];
      var finals := Items(d.finalOrder, d.finalAttrs);
      ok, first := CreateXml(finals, pool);
      if !ok {
        ghost var rest := Items(d.otherOrder, d.Others());
        assert [] + finals + rest == finals + rest && old(pool.draws)[0..] == old(pool.draws);
        StuckWithin([], finals, rest, pool.used, old(pool.draws), 0, low, high);
        return false, [];
      }
      ghost var usedNow := pool.used;
      var attr := OthersLoop(d);
      var others := Items(d.otherOrder, attr);
      ghost var second;
      ghost var n := |old(pool.draws)| - |pool.draws|;
      ok, second := CreateXml(others, pool);
      if !ok {
        assert finals + others + [] == finals + others;
        StuckWithin(finals, others, [], pool.used, old(pool.draws), n, low, high);
        return false, [];
      }
      ports := first + second;
      PortsConcat(finals, first, others, second, low, high, old(pool.used), usedNow);
      PortsInConcat(finals, first, others, second, pool.used);
      FillsAll(AllItems(d), host, ports);
      EntriesConcat(finals, first, others, second, host);
      XmlConcat(finals, first, others, second, host, mrSysDir);
      Append(old(filledInKeyVals), AllEntries(finals, host, first), AllEntries(others, host, second));
      Append(old(xml), AllXml(finals, host, mrSysDir, first), AllXml(others, host, mrSysDir, second));
    }
  }

  lemma Append<T>(a: seq<T>, b: seq<T>, c: seq<T>)
    ensures a + b + c == a + (b + c)
  {}

  lemma PortsInConcat(a: seq<Attr>, p: seq<nat>, b: seq<Attr>, q: seq<nat>, used: set<int>)
    requires PortsIn(a, p, used) && PortsIn(b, q, used)
    ensures PortsIn(a + b, p + q, used)
  {
    var c, r := a + b, p + q;
    forall i | 0 <= i < |c| && NeedsPort(c[i].1) ensures r[i] in used {
      if i >= |a| {
        assert c[i] == b[i - |a|] && r[i] == q[i - |a|];
      }
    }
  }

  /** A hodring's commands, one after the other on the same pool: the report of each,
      and ports that are pairwise distinct over all of them. */
  method StartCommands(host: string, mrSysDir: string, low: nat, high: nat, descs: seq<Desc>, pool: PortPool)
    returns (ok: bool, reports: seq<seq<string>>, ghost ports: seq<seq<nat>>)
    requires low <= high && forall i | 0 <= i < |descs| :: descs[i].Valid()
    modifies pool
    ensures !ok ==> exists i, n ::
              && 0 <= i < |descs| && 0 <= n <= |old(pool.draws)|
              && CannotFill(AllItems(descs[i]), pool.used, old(pool.draws)[n..], low, high)
    ensures ok ==>
              && |reports| == |ports| == |descs|
              && (forall i | 0 <= i < |descs| ::
                    |ports[i]| == |AllItems(descs[i])| && reports[i] == AllEntries(AllItems(descs[i]), host, ports[i]))
              && PortsOwn(Flatten(EachItems(descs)), Flatten(ports), low, high, old(pool.used))
  {
    hide PortsOwn, AllEntries, AllItems, AllXml, PortsIn, Flatten, AllFilled, CannotFill;
    reports, ports := [], [];
    NoCommands(low, high, pool.used);
    assert descs[..0] == [];
    for i := 0 to |descs|
      invariant |reports| == |ports| == i && old(pool.used) <= pool.used
      invariant |pool.draws| <= |old(pool.draws)| && pool.draws == old(pool.draws)[|old(pool.draws)| - |pool.draws|..]
      invariant forall j | 0 <= j < i ::
                  |ports[j]| == |AllItems(descs[j])| && reports[j] == AllEntries(AllItems(descs[j]), host, ports[j])
      invariant PortsOwn(Flatten(EachItems(descs[..i])), Flatten(ports), low, high, old(pool.used))
      invariant PortsIn(Flatten(EachItems(descs[..i])), Flatten(ports), pool.used)
    {
      ghost var usedNow := pool.used;
      ghost var n := |old(pool.draws)| - |pool.draws|;
      var cmd := new HadoopCommand(host, mrSysDir, low, high);
      var done, own := cmd.CreateHadoopSiteXml(descs[i], pool);
      if !done {
        return false, [], [];
      }
      NextCommand(descs, i, ports, own, low, high, old(pool.used), usedNow, pool.used);
      assert [] + AllEntries(AllItems(descs[i]), host, own) == AllEntries(AllItems(descs[i]), host, own);
      reports, ports := reports + [cmd.filledInKeyVals], ports + [own];
    }
    assert descs[..|descs|] == descs;
    ok := true;
  }

  lemma NoCommands(low: nat, high: nat, used: set<int>)
    ensures PortsOwn(Flatten(EachItems([])), Flatten([]), low, high, used)
    ensures PortsIn(Flatten(EachItems([])), Flatten([]), used)
  {}

  lemma NextCommand(descs: seq<Desc>, i: nat, ports: seq<seq<nat>>, own: seq<nat>, low: nat, high: nat,
                    before: set<int>, used: set<int>, now: set<int>)
    requires i < |descs| && (forall j | 0 <= j < |descs| :: descs[j].Valid()) && before <= used <= now
    requires PortsOwn(Flatten(EachItems(descs[..i])), Flatten(ports), low, high, before)
    requires PortsIn(Flatten(EachItems(descs[..i])), Flatten(ports), used)
    requires PortsOwn(AllItems(descs[i]), own, low, high, used) && PortsIn(AllItems(descs[i]), own, now)
    ensures PortsOwn(Flatten(EachItems(descs[..i + 1])), Flatten(ports + [own]), low, high, before)
    ensures PortsIn(Flatten(EachItems(descs[..i + 1])), Flatten(ports + [own]), now)
  {
    hide AllItems;
    var done, all := EachItems(descs[..i]), EachItems(descs[..i + 1]);
    assert all == done + [AllItems(descs[i])];
    FlattenPush(done, AllItems(descs[i]));
    FlattenPush(ports, own);
    hide Flatten;
    PortsConcat(Flatten(done), Flatten(ports), AllItems(descs[i]), own, low, high, before, used);
    PortsInConcat(Flatten(done), Flatten(ports), AllItems(descs[i]), own, now);
  }
}
