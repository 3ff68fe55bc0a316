/** What the dictionary of an IP configuration holds and means, under the keys as they are spelled. */
module IpConfigMeaning {
  import opened Wrappers
  import opened BearerIpConfig

  // ---------- writing

  /** The entry for a value that is there. */
  predicate IsEntry(e: Entry, key: string, v: Option<Variant>) {
    v.Some? && e == Entry(key, v.value)
  }

  function TextValue(v: Option<string>): Option<Variant> {
    if v.Some? then Some(Text(v.value)) else None
  }

  /** Zero is not written. */
  function NumberValue(n: nat): Option<Variant> {
    if n > 0 then Some(Number(n)) else None
  }

  function ServerValue(c: Config, i: nat): Option<Variant> {
    if c.dns.Some? && i < |c.dns.value| then Some(Text(c.dns.value[i])) else None
  }

  lemma InEntries(e: Entry, a: seq<Entry>, b: seq<Entry>)
    ensures e in a + b <==> e in a || e in b
  {
  }

  /** Exactly the method, and of the rest what is there, is written, with the first three servers. */
  lemma DictionaryMeans(c: Config, e: Entry)
    ensures e in Dictionary(c) <==>
              || e == Entry("method", Number(c.ipMethod))
              || IsEntry(e, "address", TextValue(c.address)) || IsEntry(e, "prefix", NumberValue(c.prefix))
              || IsEntry(e, "dns1", ServerValue(c, 0)) || IsEntry(e, "dns2", ServerValue(c, 1))
              || IsEntry(e, "dns3", ServerValue(c, 2))
              || IsEntry(e, "gateway", TextValue(c.gateway)) || IsEntry(e, "mtu", NumberValue(c.mtu))
  {
    TextEntryMeans(e, PROPERTY_ADDRESS, c.address);
    TextEntryMeans(e, PROPERTY_DNS1, Server(c, 0));
    TextEntryMeans(e, PROPERTY_DNS2, Server(c, 1));
    TextEntryMeans(e, PROPERTY_DNS3, Server(c, 2));
    TextEntryMeans(e, PROPERTY_GATEWAY, c.gateway);
    NumberEntryMeans(e, PROPERTY_PREFIX, c.prefix);
    NumberEntryMeans(e, PROPERTY_MTU, c.mtu);
    hide TextEntry, NumberEntry, IsEntry;
  }

  lemma TextEntryMeans(e: Entry, key: string, v: Option<string>)
    ensures e in TextEntry(key, v) <==> IsEntry(e, key, TextValue(v))
  {
  }

  lemma NumberEntryMeans(e: Entry, key: string, n: nat)
    ensures e in NumberEntry(key, n) <==> IsEntry(e, key, NumberValue(n))
  {
  }

  // ---------- reading

  /** Entry `i` is the last one with the key. */
  ghost predicate LastAt(d: seq<Entry>, key: string, i: nat) {
    i < |d| && d[i].key == key && forall j :: i < j < |d| ==> d[j].key != key
  }

  ghost predicate Lacks(d: seq<Entry>, key: string) {
    forall j :: 0 <= j < |d| ==> d[j].key != key
  }

  /** The text of the last entry with the key; a value of another type counts as missing. */
  ghost predicate ReadsText(d: seq<Entry>, key: string, r: Option<string>) {
    if Lacks(d, key) then r == None
    else exists i: nat :: LastAt(d, key, i) && r == if d[i].value.Text? then Some(d[i].value.s) else None
  }

  /** The number of the last entry with the key; a missing value or one of another type counts as zero. */
  ghost predicate ReadsNumber(d: seq<Entry>, key: string, r: nat) {
    if Lacks(d, key) then r == 0
    else exists i: nat :: LastAt(d, key, i) && r == if d[i].value.Number? then d[i].value.n else 0
  }

  lemma {:induction false} WhereLast(d: seq<Entry>, key: string) returns (n: nat)
    ensures n <= |d| && forall j :: n <= j < |d| ==> d[j].key != key
    ensures if n > 0 then d[n - 1].key == key && Last(d, key) == Some(d[n - 1].value) else Last(d, key) == None
  {
    n := |d|;
    if n > 0 && d[n - 1].key != key {
      n := WhereLast(d[..n - 1], key);
    }
  }

  lemma LastReads(d: seq<Entry>, key: string)
    ensures ReadsText(d, key, TextOf(Last(d, key))) && ReadsNumber(d, key, NumberOf(Last(d, key)))
    ensures Last(d, key).None? <==> Lacks(d, key)
  {
    hide Last;
    var n := WhereLast(d, key);
    if n > 0 { assert LastAt(d, key, n - 1); }
  }

  /** The configuration that `d` stands for: each part is read under its key, and the servers are the run without a
      gap from dns1 on. */
  ghost predicate Describes(d: seq<Entry>, c: Config) {
    && ReadsNumber(d, "method", c.ipMethod) && ReadsText(d, "address", c.address)
    && ReadsNumber(d, "prefix", c.prefix) && ReadsText(d, "gateway", c.gateway) && ReadsNumber(d, "mtu", c.mtu)
    && exists s1: Option<string>, s2: Option<string>, s3: Option<string> ::
         && ReadsText(d, "dns1", s1) && ReadsText(d, "dns2", s2) && ReadsText(d, "dns3", s3)
         && LongestRun([s1, s2, s3], c.dns)
  }

  /** The reader refuses exactly the dictionaries without a "method", and else gives what they describe. */
  lemma MeaningMeans(d: seq<Entry>)
    ensures Meaning(d).None? <==> Lacks(d, "method")
    ensures Meaning(d).Some? ==> Describes(d, Meaning(d).value)
  {
    LastReads(d, PROPERTY_METHOD);
    LastReads(d, PROPERTY_ADDRESS);
    LastReads(d, PROPERTY_PREFIX);
    LastReads(d, PROPERTY_DNS1);
    LastReads(d, PROPERTY_DNS2);
    LastReads(d, PROPERTY_DNS3);
    LastReads(d, PROPERTY_GATEWAY);
    LastReads(d, PROPERTY_MTU);
    MeaningFailsAndRun(d);
    hide Last, ReadsText, ReadsNumber, Lacks, LongestRun, TextOf, NumberOf, Run;
    if Meaning(d).Some? {
      var c := Meaning(d).value;
      var s1, s2, s3 := Servers(d)[0], Servers(d)[1], Servers(d)[2];
      assert Servers(d) == [s1, s2, s3];
      assert ReadsText(d, "dns1", s1) && ReadsText(d, "dns2", s2) && ReadsText(d, "dns3", s3);
    }
  }

  /** A dictionary describes one configuration at most, so this says all. */
  lemma DescribesOne(d: seq<Entry>, c: Config, c': Config)
    requires Describes(d, c) && Describes(d, c')
    ensures c == c'
  {
    hide Lacks;
    var s1: Option<string>, s2: Option<string>, s3: Option<string> :|
      && ReadsText(d, "dns1", s1) && ReadsText(d, "dns2", s2) && ReadsText(d, "dns3", s3)
      && LongestRun([s1, s2, s3], c.dns);
    var t1: Option<string>, t2: Option<string>, t3: Option<string> :|
      && ReadsText(d, "dns1", t1) && ReadsText(d, "dns2", t2) && ReadsText(d, "dns3", t3)
      && LongestRun([t1, t2, t3], c'.dns);
    OneText(d, "dns1", s1, t1);
    OneText(d, "dns2", s2, t2);
    OneText(d, "dns3", s3, t3);
    OneText(d, "address", c.address, c'.address);
    OneText(d, "gateway", c.gateway, c'.gateway);
    OneNumber(d, "method", c.ipMethod, c'.ipMethod);
    OneNumber(d, "prefix", c.prefix, c'.prefix);
    OneNumber(d, "mtu", c.mtu, c'.mtu);
    hide ReadsText, ReadsNumber;
    OneRun([s1, s2, s3], c.dns, c'.dns);
  }

  lemma OneText(d: seq<Entry>, key: string, a: Option<string>, b: Option<string>)
    requires ReadsText(d, key, a) && ReadsText(d, key, b)
    ensures a == b
  {
  }

  lemma OneNumber(d: seq<Entry>, key: string, a: nat, b: nat)
    requires ReadsNumber(d, key, a) && ReadsNumber(d, key, b)
    ensures a == b
  {
  }

  lemma OneRun(servers: seq<Option<string>>, a: Option<seq<string>>, b: Option<seq<string>>)
    requires servers != [] && LongestRun(servers, a) && LongestRun(servers, b)
    ensures a == b
  {
    assert a.Some? ==> servers[0] == Some(a.value[0]);
    assert b.Some? ==> servers[0] == Some(b.value[0]);
    if a.Some? && b.Some? {
      var r, s := a.value, b.value;
      forall i | 0 <= i < |r| && i < |s| ensures r[i] == s[i] {
        assert servers[i] == Some(r[i]) && servers[i] == Some(s[i]);
      }
      assert r == s;
    }
  }
}
