/** The IP configuration of a bearer, written to and rebuilt from a dictionary of keys and typed values. */
module BearerIpConfig {
  import opened Wrappers

  const IP_METHOD_UNKNOWN: nat := 0

  const PROPERTY_METHOD := "method"
  const PROPERTY_ADDRESS := "address"
  const PROPERTY_PREFIX := "prefix"
  const PROPERTY_DNS1 := "dns1"
  const PROPERTY_DNS2 := "dns2"
  const PROPERTY_DNS3 := "dns3"
  const PROPERTY_GATEWAY := "gateway"
  const PROPERTY_MTU := "mtu"

  datatype Variant = Number(n: nat) | Text(s: string)

  datatype Entry = Entry(key: string, value: Variant)

  /** The contents of a configuration. */
  datatype Config = Config(
    ipMethod: nat, address: Option<string>, prefix: nat,
    dns: Option<seq<string>>, gateway: Option<string>, mtu: nat)

  const Default := Config(IP_METHOD_UNKNOWN, None, 0, None, None, 0)

  const KNOWN_KEYS := {PROPERTY_METHOD, PROPERTY_ADDRESS, PROPERTY_PREFIX, PROPERTY_DNS1, PROPERTY_DNS2,
                       PROPERTY_DNS3, PROPERTY_GATEWAY, PROPERTY_MTU}

  // ---------- what a dictionary means

  /** The last value of a key. */
  function Last(d: seq<Entry>, key: string): (r: Option<Variant>)
    ensures r.Some? ==> Entry(key, r.value) in d
    ensures r.None? <==> forall e :: e in d ==> e.key != key
  {
    if d == [] then None
    else
      var n := |d| - 1;
      if d[n].key == key then Some(d[n].value) else Last(d[..n], key)
  }

  /** GLib's g_variant_get_string: a value of another type gives no string. */
  function GetString(v: Variant): Option<string> {
    if v.Text? then Some(v.s) else None
  }

  /** GLib's g_variant_get_uint32: a value of another type gives zero. */
  function GetUint(v: Variant): nat {
    if v.Number? then v.n else 0
  }

  function TextOf(v: Option<Variant>): Option<string> {
    if v.Some? then GetString(v.value) else None
  }

  function NumberOf(v: Option<Variant>): nat {
    if v.Some? then GetUint(v.value) else 0
  }

  /** The servers of the longest run without a gap, from the first one on. */
  function Run(servers: seq<Option<string>>): seq<string> {
    if servers == [] || servers[0].None? then [] else [servers[0].value] + Run(servers[1..])
  }

  function Servers(d: seq<Entry>): seq<Option<string>> {
    [TextOf(Last(d, PROPERTY_DNS1)), TextOf(Last(d, PROPERTY_DNS2)), TextOf(Last(d, PROPERTY_DNS3))]
  }

  /** The configuration a dictionary stands for; none without a method. */
  function Meaning(d: seq<Entry>): Option<Config> {
    if Last(d, PROPERTY_METHOD).None? then None
    else
      Some(Config(
        NumberOf(Last(d, PROPERTY_METHOD)), TextOf(Last(d, PROPERTY_ADDRESS)), NumberOf(Last(d, PROPERTY_PREFIX)),
        if Servers(d)[0].None? then None else Some(Run(Servers(d))),
        TextOf(Last(d, PROPERTY_GATEWAY)), NumberOf(Last(d, PROPERTY_MTU))))
  }

  // ---------- the dictionary of a configuration

  function TextEntry(key: string, v: Option<string>): seq<Entry> {
    if v.Some? then [Entry(key, Text(v.value))] else []
  }

  function NumberEntry(key: string, n: nat): seq<Entry> {
    if n != 0 then [Entry(key, Number(n))] else []
  }

  /** The server with (zero-based) index `i`. */
  function Server(c: Config, i: nat): Option<string> {
    if c.dns.Some? && i < |c.dns.value| then Some(c.dns.value[i]) else None
  }

  function Dictionary(c: Config): seq<Entry> {
    [Entry(PROPERTY_METHOD, Number(c.ipMethod))]
    + TextEntry(PROPERTY_ADDRESS, c.address) + NumberEntry(PROPERTY_PREFIX, c.prefix)
    + TextEntry(PROPERTY_DNS1, Server(c, 0)) + TextEntry(PROPERTY_DNS2, Server(c, 1))
    + TextEntry(PROPERTY_DNS3, Server(c, 2))
    + TextEntry(PROPERTY_GATEWAY, c.gateway) + NumberEntry(PROPERTY_MTU, c.mtu)
  }

  /** What survives: at most three servers, and none at all instead of an empty array. */
  function Kept(c: Config): Config {
    c.(dns := if c.dns.None? || c.dns.value == [] then None
              else Some(if |c.dns.value| <= 3 then c.dns.value else c.dns.value[..3]))
  }

  // ---------- the object

  class IpConfig {
    var ipMethod: nat
    var address: Option<string>
    var prefix: nat
    var dns: Option<seq<string>>
    var gateway: Option<string>
    var mtu: nat

    ghost function Value(): Config
      reads this
    {
      Config(ipMethod, address, prefix, dns, gateway, mtu)
    }

    constructor ()
      ensures Value() == Default
    {
      ipMethod := IP_METHOD_UNKNOWN;
      address := None;
      prefix := 0;
      dns := None;
      gateway := None;
      mtu := 0;
    }

    method SetMethod(v: nat)
      modifies this`ipMethod
      ensures Value() == old(Value()).(ipMethod := v)
    {
      ipMethod := v;
    }

    method SetAddress(v: Option<string>)
      modifies this`address
      ensures Value() == old(Value()).(address := v)
    {
      address := v;
    }

    method SetPrefix(v: nat)
      modifies this`prefix
      ensures Value() == old(Value()).(prefix := v)
    {
      prefix := v;
    }

    method SetDns(v: Option<seq<string>>)
      modifies this`dns
      ensures Value() == old(Value()).(dns := v)
    {
      dns := v;
    }

    method SetGateway(v: Option<string>)
      modifies this`gateway
      ensures Value() == old(Value()).(gateway := v)
    {
      gateway := v;
    }

    method SetMtu(v: nat)
      modifies this`mtu
      ensures Value() == old(Value()).(mtu := v)
    {
      mtu := v;
    }
  }

  method AddText(d: seq<Entry>, key: string, v: Option<string>) returns (r: seq<Entry>)
    ensures r == d + TextEntry(key, v)
  {
    r := d;
    if v.Some? {
      r := r + [Entry(key, Text(v.value))];
    }
  }

  method AddNumber(d: seq<Entry>, key: string, n: nat) returns (r: seq<Entry>)
    ensures r == d + NumberEntry(key, n)
  {
    r := d;
    if n != 0 {
      r := r + [Entry(key, Number(n))];
    }
  }

  /** The nested tests for up to three servers. */
  method AddServers(d: seq<Entry>, c: Config) returns (r: seq<Entry>)
    ensures r == d + TextEntry(PROPERTY_DNS1, Server(c, 0)) + TextEntry(PROPERTY_DNS2, Server(c, 1))
                   + TextEntry(PROPERTY_DNS3, Server(c, 2))
  {
    r := d;
    if c.dns.Some? && |c.dns.value| > 0 {
      r := r + [Entry(PROPERTY_DNS1, Text(c.dns.value[0]))];
      if |c.dns.value| > 1 {
        r := r + [Entry(PROPERTY_DNS2, Text(c.dns.value[1]))];
        if |c.dns.value| > 2 {
          r := r + [Entry(PROPERTY_DNS3, Text(c.dns.value[2]))];
        }
      }
    }
  }

  /** mm_bearer_ip_config_get_dictionary; without an object the method is reported as unknown. */
  method GetDictionary(self: IpConfig?) returns (d: seq<Entry>)
    ensures d == Dictionary(if self == null then Default else self.Value())
  {
    d := [Entry(PROPERTY_METHOD, Number(if self != null then self.ipMethod else IP_METHOD_UNKNOWN))];
    if self != null {
      d := AddText(d, PROPERTY_ADDRESS, self.address);
      d := AddNumber(d, PROPERTY_PREFIX, self.prefix);
      d := AddServers(d, Config(self.ipMethod, self.address, self.prefix, self.dns, self.gateway, self.mtu));
      d := AddText(d, PROPERTY_GATEWAY, self.gateway);
      d := AddNumber(d, PROPERTY_MTU, self.mtu);
    }
  }

  /** The argument of the reader: no dictionary, a value of another type, or a dictionary. */
  datatype Source = Absent | WrongType | Entries(d: seq<Entry>)

  /** mm_bearer_ip_config_new_from_dictionary: no object for an error. */
  method NewFromDictionary(source: Source) returns (self: IpConfig?)
    ensures source == Absent ==> self != null && self.Value() == Default
    ensures source == WrongType ==> self == null
    ensures source.Entries? ==> (self == null <==> Meaning(source.d).None?)
    ensures source.Entries? && self != null ==> Meaning(source.d) == Some(self.Value())
    ensures self != null ==> fresh(self)
  {
    var obj := new IpConfig();
    if source.Absent? {
      return obj;
    }
    if source.WrongType? {
      return null;
    }
    hide Last, CollectedFrom, Collect, Meaning, Run;
    var d := source.d;
    NothingCollected();
    assert d[..0] == [];
    var dnsArray: array<Option<string>> := new Option<string>[3](_ => None);
    var methodReceived := false;
    var i := 0;
    while i < |d|
      invariant 0 <= i <= |d| && fresh(obj) && fresh(dnsArray) && dnsArray.Length == 3
      invariant methodReceived <==> Last(d[..i], PROPERTY_METHOD).Some?
      invariant CollectedIn(obj, dnsArray) == CollectedFrom(d[..i])
    {
      LastSnoc(d, i, PROPERTY_METHOD);
      CollectStep(d, i);
      Store(obj, dnsArray, d[i]);
      if d[i].key == PROPERTY_METHOD {
        methodReceived := true;
      }
      i := i + 1;
    }
    assert d[..i] == d;
    MeaningOfCollected(d);
    if dnsArray[0].Some? {
      var servers := TakeRun(dnsArray);
      obj.SetDns(Some(servers));
    }
    self := if methodReceived then obj else null;
  }

  lemma LastSnoc(d: seq<Entry>, i: nat, key: string)
    requires i < |d|
    ensures Last(d[..i + 1], key) == if d[i].key == key then Some(d[i].value) else Last(d[..i], key)
    ensures TextOf(Last(d[..i + 1], key)) == if d[i].key == key then GetString(d[i].value) else TextOf(Last(d[..i], key))
    ensures NumberOf(Last(d[..i + 1], key)) == if d[i].key == key then GetUint(d[i].value) else NumberOf(Last(d[..i], key))
  {
    assert d[..i + 1][..i] == d[..i];
  }

  /** What the reader has collected so far: the object's contents, without servers, and the three servers. */
  datatype Collected = Collected(config: Config, servers: seq<Option<string>>)

  ghost function CollectedIn(obj: IpConfig, dnsArray: array<Option<string>>): Collected
    reads obj, dnsArray
  {
    Collected(obj.Value(), dnsArray[..])
  }

  /** What has to be collected from `d`: the last value of each key. */
  function CollectedFrom(d: seq<Entry>): Collected {
    Collected(
      Config(NumberOf(Last(d, PROPERTY_METHOD)), TextOf(Last(d, PROPERTY_ADDRESS)), NumberOf(Last(d, PROPERTY_PREFIX)),
             None, TextOf(Last(d, PROPERTY_GATEWAY)), NumberOf(Last(d, PROPERTY_MTU))),
      Servers(d))
  }

  /** The meaning is what has been collected, with the run of servers, if there is a method. */
  lemma MeaningOfCollected(d: seq<Entry>)
    ensures var r := CollectedFrom(d);
            && |r.servers| == 3 && r.config.dns == None
            && Meaning(d) == if Last(d, PROPERTY_METHOD).None? then None
                             else Some(r.config.(dns := if r.servers[0].None? then None else Some(Run(r.servers))))
  {
  }

  lemma NothingCollected()
    ensures CollectedFrom([]) == Collected(Default, [None, None, None]) && Last([], PROPERTY_METHOD) == None
  {
  }

  /** The effect of one entry. */
  function Collect(r: Collected, e: Entry): Collected
    requires |r.servers| == 3
  {
    if e.key == PROPERTY_METHOD then r.(config := r.config.(ipMethod := GetUint(e.value)))
    else if e.key == PROPERTY_ADDRESS then r.(config := r.config.(address := GetString(e.value)))
    else if e.key == PROPERTY_PREFIX then r.(config := r.config.(prefix := GetUint(e.value)))
    else if e.key == PROPERTY_DNS1 then r.(servers := r.servers[0 := GetString(e.value)])
    else if e.key == PROPERTY_DNS2 then r.(servers := r.servers[1 := GetString(e.value)])
    else if e.key == PROPERTY_DNS3 then r.(servers := r.servers[2 := GetString(e.value)])
    else if e.key == PROPERTY_GATEWAY then r.(config := r.config.(gateway := GetString(e.value)))
    else if e.key == PROPERTY_MTU then r.(config := r.config.(mtu := GetUint(e.value)))
    else r
  }

  lemma CollectStep(d: seq<Entry>, i: nat)
    requires i < |d|
    ensures CollectedFrom(d[..i + 1]) == Collect(CollectedFrom(d[..i]), d[i])
  {
    hide Last, TextOf, NumberOf, GetString, GetUint;
    KeysDistinct();
    LastSnoc(d, i, PROPERTY_METHOD);
    LastSnoc(d, i, PROPERTY_ADDRESS);
    LastSnoc(d, i, PROPERTY_PREFIX);
    LastSnoc(d, i, PROPERTY_DNS1);
    LastSnoc(d, i, PROPERTY_DNS2);
    LastSnoc(d, i, PROPERTY_DNS3);
    LastSnoc(d, i, PROPERTY_GATEWAY);
    LastSnoc(d, i, PROPERTY_MTU);
  }

  /** The keys are eight different strings. */
  lemma KeysDistinct()
    ensures PROPERTY_METHOD !in [PROPERTY_ADDRESS, PROPERTY_PREFIX, PROPERTY_DNS1, PROPERTY_DNS2, PROPERTY_DNS3,
                                 PROPERTY_GATEWAY, PROPERTY_MTU]
    ensures PROPERTY_ADDRESS !in [PROPERTY_PREFIX, PROPERTY_DNS1, PROPERTY_DNS2, PROPERTY_DNS3,
                                  PROPERTY_GATEWAY, PROPERTY_MTU]
    ensures PROPERTY_PREFIX !in [PROPERTY_DNS1, PROPERTY_DNS2, PROPERTY_DNS3, PROPERTY_GATEWAY, PROPERTY_MTU]
    ensures PROPERTY_DNS1 !in [PROPERTY_DNS2, PROPERTY_DNS3, PROPERTY_GATEWAY, PROPERTY_MTU]
    ensures PROPERTY_DNS2 !in [PROPERTY_DNS3, PROPERTY_GATEWAY, PROPERTY_MTU]
    ensures PROPERTY_DNS3 !in [PROPERTY_GATEWAY, PROPERTY_MTU]
    ensures PROPERTY_GATEWAY != PROPERTY_MTU
  {
    assert PROPERTY_METHOD[0] == 'm' && PROPERTY_ADDRESS[0] == 'a' && PROPERTY_PREFIX[0] == 'p';
    assert PROPERTY_DNS1[3] == '1' && PROPERTY_DNS2[3] == '2' && PROPERTY_DNS3[3] == '3';
    assert PROPERTY_GATEWAY[0] == 'g' && PROPERTY_DNS1[0] == PROPERTY_DNS2[0] == PROPERTY_DNS3[0] == 'd';
    assert |PROPERTY_METHOD| == 6 && |PROPERTY_MTU| == 3 && PROPERTY_MTU[0] == 'm';
  }

  /** One entry of the dictionary goes to its place; unknown keys go nowhere. */
  method Store(obj: IpConfig, dnsArray: array<Option<string>>, e: Entry)
    requires dnsArray.Length == 3
    modifies obj, dnsArray
    ensures CollectedIn(obj, dnsArray) == Collect(old(CollectedIn(obj, dnsArray)), e)
  {
    if e.key == PROPERTY_METHOD {
      obj.SetMethod(GetUint(e.value));
    } else if e.key == PROPERTY_ADDRESS {
      obj.SetAddress(GetString(e.value));
    } else if e.key == PROPERTY_PREFIX {
      obj.SetPrefix(GetUint(e.value));
    } else if e.key == PROPERTY_DNS1 {
      dnsArray[0] := GetString(e.value);
    } else if e.key == PROPERTY_DNS2 {
      dnsArray[1] := GetString(e.value);
    } else if e.key == PROPERTY_DNS3 {
      dnsArray[2] := GetString(e.value);
    } else if e.key == PROPERTY_GATEWAY {
      obj.SetGateway(GetString(e.value));
    } else if e.key == PROPERTY_MTU {
      obj.SetMtu(GetUint(e.value));
    }
  }

  /** g_strdupv on an array that ends at its first missing element. */
  method TakeRun(servers: array<Option<string>>) returns (r: seq<string>)
    ensures r == Run(servers[..])
  {
    r := [];
    var i := 0;
    while i < servers.Length && servers[i].Some?
      invariant 0 <= i <= servers.Length
      invariant Run(servers[..]) == r + Run(servers[..][i..])
    {
      assert servers[..][i..][1..] == servers[..][i + 1..];
      r := r + [servers[i].value];
      i := i + 1;
    }
  }

  // ---------- the reader undoes the writer

  lemma {:induction false} LastConcat(a: seq<Entry>, b: seq<Entry>, key: string)
    ensures Last(a + b, key) == if Last(b, key).Some? then Last(b, key) else Last(a, key)
  {
    if b == [] {
      assert a + b == a;
    } else {
      var n := |b| - 1;
      assert (a + b)[..|a| + n] == a + b[..n];
      LastConcat(a, b[..n], key);
    }
  }

  /** One more entry is one more effect. */
  lemma AfterEntry(d: seq<Entry>, e: Entry)
    ensures CollectedFrom(d + [e]) == Collect(CollectedFrom(d), e)
  {
    assert (d + [e])[..|d|] == d && (d + [e])[..|d| + 1] == d + [e];
    CollectStep(d + [e], |d|);
  }

  lemma AfterText(d: seq<Entry>, key: string, v: Option<string>)
    ensures CollectedFrom(d + TextEntry(key, v))
         == if v.Some? then Collect(CollectedFrom(d), Entry(key, Text(v.value))) else CollectedFrom(d)
  {
    hide CollectedFrom, Collect;
    if v.Some? {
      AfterEntry(d, Entry(key, Text(v.value)));
    } else {
      assert d + [] == d;
    }
  }

  lemma AfterNumber(d: seq<Entry>, key: string, n: nat)
    ensures CollectedFrom(d + NumberEntry(key, n))
         == if n != 0 then Collect(CollectedFrom(d), Entry(key, Number(n))) else CollectedFrom(d)
  {
    hide CollectedFrom, Collect;
    if n != 0 {
      AfterEntry(d, Entry(key, Number(n)));
    } else {
      assert d + [] == d;
    }
  }

  /** Reading a written configuration entry by entry collects its parts, and at most three servers. */
  lemma DictionaryCollects(c: Config)
    ensures CollectedFrom(Dictionary(c)) == Collected(c.(dns := None), [Server(c, 0), Server(c, 1), Server(c, 2)])
  {
    hide CollectedFrom, Last;
    KeysDistinct();
    NothingCollected();
    var m := Entry(PROPERTY_METHOD, Number(c.ipMethod));
    AfterEntry([], m);
    assert [] + [m] == [m];
    var d := [m];
    AfterText(d, PROPERTY_ADDRESS, c.address);
    d := d + TextEntry(PROPERTY_ADDRESS, c.address);
    AfterNumber(d, PROPERTY_PREFIX, c.prefix);
    d := d + NumberEntry(PROPERTY_PREFIX, c.prefix);
    AfterText(d, PROPERTY_DNS1, Server(c, 0));
    d := d + TextEntry(PROPERTY_DNS1, Server(c, 0));
    AfterText(d, PROPERTY_DNS2, Server(c, 1));
    d := d + TextEntry(PROPERTY_DNS2, Server(c, 1));
    AfterText(d, PROPERTY_DNS3, Server(c, 2));
    d := d + TextEntry(PROPERTY_DNS3, Server(c, 2));
    AfterText(d, PROPERTY_GATEWAY, c.gateway);
    d := d + TextEntry(PROPERTY_GATEWAY, c.gateway);
    AfterNumber(d, PROPERTY_MTU, c.mtu);
  }

  /** Rebuilding from the dictionary gives the configuration back, with the servers cut to three. */
  lemma DictionaryRoundTrip(c: Config)
    ensures Meaning(Dictionary(c)) == Some(Kept(c))
  {
    hide CollectedFrom, Last, Run;
    var d := Dictionary(c);
    DictionaryCollects(c);
    MeaningOfCollected(d);
    assert d[0] == Entry(PROPERTY_METHOD, Number(c.ipMethod)) && d[0] in d;
    RunOfServers(c);
  }

  /** Writing an object and reading it again. */
  method WriteAndRead(self: IpConfig) returns (r: IpConfig?)
    ensures r != null && fresh(r) && r.Value() == Kept(self.Value())
  {
    DictionaryRoundTrip(self.Value());
    var d := GetDictionary(self);
    r := NewFromDictionary(Entries(d));
  }

  lemma RunOfServers(c: Config)
    ensures Run([Server(c, 0), Server(c, 1), Server(c, 2)]) == if Kept(c).dns.Some? then Kept(c).dns.value else []
  {
    var s := [Server(c, 0), Server(c, 1), Server(c, 2)];
    assert s[1..] == [s[1], s[2]] && s[1..][1..] == [s[2]] && s[1..][1..][1..] == [];
    assert Run([]) == [];
    assert Run([s[2]]) == if s[2].Some? then [s[2].value] else [];
    assert Run([s[1], s[2]]) == if s[1].Some? then [s[1].value] + Run([s[2]]) else [];
    if c.dns.Some? {
      var v := c.dns.value;
      assert |v| == 1 ==> v == [v[0]];
      assert |v| == 2 ==> v == [v[0], v[1]];
      assert |v| >= 3 ==> v[..3] == [v[0], v[1], v[2]];
      assert |v| == 3 ==> v[..3] == v;
    }
  }

  /** What has been rebuilt is rebuilt again unchanged: writing after rebuilding is idempotent. */
  lemma RebuildIdempotent(d: seq<Entry>)
    requires Meaning(d).Some?
    ensures Kept(Meaning(d).value) == Meaning(d).value
    ensures Meaning(Dictionary(Meaning(d).value)) == Meaning(d)
  {
    hide Last, Dictionary;
    var s := Servers(d);
    assert |Run(s)| <= 3 by { RunLength(s); }
    DictionaryRoundTrip(Meaning(d).value);
  }

  lemma {:induction false} RunLength(s: seq<Option<string>>)
    ensures |Run(s)| <= |s|
    ensures forall i :: 0 <= i < |Run(s)| ==> s[i] == Some(Run(s)[i])
    ensures |Run(s)| < |s| ==> s[|Run(s)|].None?
  {
    if s != [] && s[0].Some? { RunLength(s[1..]); }
  }

  // ---------- order, unknown keys, repeated keys

  ghost predicate DistinctKeys(d: seq<Entry>) {
    forall i, j :: 0 <= i < j < |d| ==> d[i].key != d[j].key
  }

  lemma {:induction false} LastOfDistinct(d: seq<Entry>, e: Entry)
    requires DistinctKeys(d) && e in d
    ensures Last(d, e.key) == Some(e.value)
  {
    var n := |d| - 1;
    if d[n] != e {
      assert e in d[..n];
      var i :| 0 <= i < n && d[i] == e;
      LastOfDistinct(d[..n], e);
    }
  }

  /** The two dictionaries have the same last value for each known key. */
  ghost predicate AgreeOnKeys(d: seq<Entry>, d': seq<Entry>) {
    && Last(d, PROPERTY_METHOD) == Last(d', PROPERTY_METHOD)
    && Last(d, PROPERTY_ADDRESS) == Last(d', PROPERTY_ADDRESS)
    && Last(d, PROPERTY_PREFIX) == Last(d', PROPERTY_PREFIX)
    && Last(d, PROPERTY_DNS1) == Last(d', PROPERTY_DNS1)
    && Last(d, PROPERTY_DNS2) == Last(d', PROPERTY_DNS2)
    && Last(d, PROPERTY_DNS3) == Last(d', PROPERTY_DNS3)
    && Last(d, PROPERTY_GATEWAY) == Last(d', PROPERTY_GATEWAY)
    && Last(d, PROPERTY_MTU) == Last(d', PROPERTY_MTU)
  }

  /** Only the last values of the known keys count. */
  lemma MeaningByKeys(d: seq<Entry>, d': seq<Entry>)
    requires AgreeOnKeys(d, d')
    ensures Meaning(d) == Meaning(d')
  {
    hide Last, Run;
    assert Servers(d) == Servers(d');
  }

  predicate IsKnown(key: string) { key in KNOWN_KEYS }

  lemma SameEntriesSameLast(d: seq<Entry>, d': seq<Entry>, k: string)
    requires DistinctKeys(d) && DistinctKeys(d') && IsKnown(k)
    requires forall e: Entry :: IsKnown(e.key) ==> (e in d <==> e in d')
    ensures Last(d, k) == Last(d', k)
  {
    if Last(d, k).Some? {
      LastOfDistinct(d', Entry(k, Last(d, k).value));
    }
  }

  /** With distinct keys neither the order of the entries matters nor entries with unknown keys. */
  lemma OrderIndependent(d: seq<Entry>, d': seq<Entry>)
    requires DistinctKeys(d) && DistinctKeys(d')
    requires forall e: Entry :: IsKnown(e.key) ==> (e in d <==> e in d')
    ensures Meaning(d) == Meaning(d')
  {
    hide Last, Meaning;
    SameEntriesSameLast(d, d', PROPERTY_METHOD);
    SameEntriesSameLast(d, d', PROPERTY_ADDRESS);
    SameEntriesSameLast(d, d', PROPERTY_PREFIX);
    SameEntriesSameLast(d, d', PROPERTY_DNS1);
    SameEntriesSameLast(d, d', PROPERTY_DNS2);
    SameEntriesSameLast(d, d', PROPERTY_DNS3);
    SameEntriesSameLast(d, d', PROPERTY_GATEWAY);
    SameEntriesSameLast(d, d', PROPERTY_MTU);
    MeaningByKeys(d, d');
  }

  /** With repeated keys the last entry wins: what a later entry repeats can be left out. */
  lemma LastEntryWins(a: seq<Entry>, b: seq<Entry>, e: Entry)
    requires Last(b, e.key).Some?
    ensures Meaning(a + [e] + b) == Meaning(a + b)
  {
    hide Meaning;
    forall k ensures Last(a + [e] + b, k) == Last(a + b, k) {
      LastConcat(a + [e], b, k);
      LastConcat(a, b, k);
      if k != e.key { LastConcat(a, [e], k); }
    }
    MeaningByKeys(a + [e] + b, a + b);
  }

  /** `dns` is the longest run of servers from the first one on; no array for the empty run. */
  ghost predicate LongestRun(servers: seq<Option<string>>, dns: Option<seq<string>>) {
    match dns
    case None => servers != [] ==> servers[0].None?
    case Some(run) =>
      && 0 < |run| <= |servers|
      && (forall i :: 0 <= i < |run| ==> servers[i] == Some(run[i]))
      && (|run| < |servers| ==> servers[|run|].None?)
  }

  /** The reader refuses exactly the dictionaries without a method; the servers are those of the longest run
      without a gap from dns1 on. */
  lemma MeaningFailsAndRun(d: seq<Entry>)
    ensures Meaning(d).None? <==> forall e :: e in d ==> e.key != PROPERTY_METHOD
    ensures Meaning(d).Some? ==> LongestRun(Servers(d), Meaning(d).value.dns)
  {
    RunLength(Servers(d));
  }
}
