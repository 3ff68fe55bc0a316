/** How the string a user gives for an object is read, and how a modem is found with it. */
module ObjectLookup {
  import opened Wrappers

  const ANY_OBJECT_STR := "any"

  /** What the string names; Rejected leaves the process with a message, NullWrite writes through a pointer the
      caller did not give. */
  datatype Lookup =
    | ByPath(path: string) | ByUid(uid: string) | ByPhysdev(physdev: string) | FindAny | Rejected | NullWrite

  /** Which of the results a caller has room for, and the D-Bus prefix of its objects. */
  datatype Caller = Caller(prefix: string, takesUid: bool, takesPhysdev: bool, takesAny: bool)

  predicate IsDigit(c: char) { '0' <= c <= '9' }

  predicate AllDigits(s: string) { forall c :: c in s ==> IsDigit(c) }

  function LowerChar(c: char): char {
    if 'A' <= c <= 'Z' then (c as int - 'A' as int + 'a' as int) as char else c
  }

  /** `g_ascii_strncasecmp (a, b, n) == 0`, where strings end like C strings do. */
  predicate SameLetters(a: string, b: string, n: nat) {
    n == 0 || (a == "" && b == "") ||
    (a != "" && b != "" && LowerChar(a[0]) == LowerChar(b[0]) && SameLetters(a[1..], b[1..], n - 1))
  }

  /** The string, in any case, is "a", "an" or "any" (or empty). */
  predicate AbbreviatesAny(s: string) {
    && |s| <= 3 && (|s| > 0 ==> s[0] == 'a' || s[0] == 'A')
    && (|s| > 1 ==> s[1] == 'n' || s[1] == 'N') && (|s| > 2 ==> s[2] == 'y' || s[2] == 'Y')
  }

  lemma {:induction false} SameLettersMeans(a: string, b: string)
    ensures SameLetters(a, b, |a|)
       <==> |a| <= |b| && forall i :: 0 <= i < |a| ==> LowerChar(a[i]) == LowerChar(b[i])
  {
    if a != "" && b != "" {
      SameLettersMeans(a[1..], b[1..]);
      if SameLetters(a, b, |a|) {
        forall i | 0 <= i < |a| ensures LowerChar(a[i]) == LowerChar(b[i]) {
          assert i > 0 ==> a[i] == a[1..][i - 1] && b[i] == b[1..][i - 1];
        }
      } else if |a| <= |b| && LowerChar(a[0]) == LowerChar(b[0]) {
        var i :| 0 <= i < |a[1..]| && LowerChar(a[1..][i]) != LowerChar(b[1..][i]);
        assert a[i + 1] == a[1..][i] && b[i + 1] == b[1..][i];
      }
    }
  }

  lemma AnyMeans(s: string)
    ensures SameLetters(s, ANY_OBJECT_STR, |s|) <==> AbbreviatesAny(s)
  {
    SameLettersMeans(s, ANY_OBJECT_STR);
    assert ANY_OBJECT_STR[0] == 'a' && ANY_OBJECT_STR[1] == 'n' && ANY_OBJECT_STR[2] == 'y';
    assert forall i :: 0 <= i < 3 ==> LowerChar(ANY_OBJECT_STR[i]) == ANY_OBJECT_STR[i];
  }

  /** Where the source writes a physical device. */
  predicate NeedsPhysdev(caller: Caller, str: string) {
    str != "" && str[0] == '/' && !(caller.prefix <= str)
  }

  /** What a string stands for, by its shape alone. */
  ghost predicate Stands(caller: Caller, str: string, r: Lookup) {
    match r
    case ByPath(p) =>
      (caller.prefix <= str && p == str && str != "")
      || (!(caller.prefix <= str) && str != "" && AllDigits(str) && p == caller.prefix + "/" + str)
    case FindAny => caller.takesAny && str != "" && AbbreviatesAny(str) && !(caller.prefix <= str)
    case ByPhysdev(d) => NeedsPhysdev(caller, str) && caller.takesPhysdev && d == str
    case NullWrite => NeedsPhysdev(caller, str) && !caller.takesPhysdev
    case ByUid(u) =>
      && caller.takesUid && str != "" && u == str && !(caller.prefix <= str) && !AllDigits(str)
      && !(caller.takesAny && AbbreviatesAny(str)) && str[0] != '/'
    case Rejected =>
      str == "" || (&& !caller.takesUid && !(caller.prefix <= str) && !AllDigits(str)
                    && !(caller.takesAny && AbbreviatesAny(str)) && str[0] != '/')
  }

  /** get_object_lookup_info. */
  method GetLookupInfo(caller: Caller, str: string) returns (r: Lookup)
    ensures Stands(caller, str, r)
    ensures r == NullWrite <==> NeedsPhysdev(caller, str) && !caller.takesPhysdev
  {
    if str == "" {
      return Rejected;
    }
    if caller.prefix <= str {
      return ByPath(str);
    }
    var allNumeric := true;
    var i := 0;
    while i < |str|
      invariant 0 <= i <= |str|
      invariant allNumeric && forall k :: 0 <= k < i ==> IsDigit(str[k])
    {
      if !IsDigit(str[i]) {
        allNumeric := false;
        assert str[i] in str;
        break;
      }
      i := i + 1;
    }
    if allNumeric {
      return ByPath(caller.prefix + "/" + str);
    }
    AnyMeans(str);
    if caller.takesAny && SameLetters(str, ANY_OBJECT_STR, |str|) {
      return FindAny;
    }
    if "/" <= str {
      return if caller.takesPhysdev then ByPhysdev(str) else NullWrite;
    }
    if caller.takesUid {
      return ByUid(str);
    }
    return Rejected;
  }

  /** Exactly one reading is possible. */
  lemma ReadingUnique(caller: Caller, str: string, a: Lookup, b: Lookup)
    requires Stands(caller, str, a) && Stands(caller, str, b)
    ensures a == b
  {
    if str != "" {
      assert str[0] in str;
      if AbbreviatesAny(str) { assert LowerChar(str[0]) == 'a'; }
    }
  }

  /** The reading, step by step. */
  lemma ReadingMeans(caller: Caller, str: string, r: Lookup)
    requires Stands(caller, str, r)
    ensures r ==
      if str == "" then Rejected
      else if caller.prefix <= str then ByPath(str)
      else if forall c :: c in str ==> '0' <= c <= '9' then ByPath(caller.prefix + "/" + str)
      else if caller.takesAny && |str| <= 3 && (str[0] == 'a' || str[0] == 'A')
              && (|str| > 1 ==> str[1] == 'n' || str[1] == 'N') && (|str| > 2 ==> str[2] == 'y' || str[2] == 'Y') then FindAny
      else if str[0] == '/' then if caller.takesPhysdev then ByPhysdev(str) else NullWrite
      else if caller.takesUid then ByUid(str) else Rejected
  {
    if str != "" { assert str[0] in str; }
  }

  /** An index and the path with that index name the same object. */
  lemma IndexNamesPath(caller: Caller, index: string, a: Lookup, b: Lookup)
    requires index != "" && AllDigits(index) && "/" <= caller.prefix
    requires Stands(caller, index, a) && Stands(caller, caller.prefix + "/" + index, b)
    ensures a == b == ByPath(caller.prefix + "/" + index)
  {
    assert index[0] in index;
    var full := caller.prefix + "/" + index;
    assert caller.prefix <= full;
    ReadingUnique(caller, index, a, ByPath(full));
    ReadingUnique(caller, full, b, ByPath(full));
  }

  const MODEM_CALLER := Caller("/org/freedesktop/ModemManager1/Modem", true, true, true)
  const SIM_CALLER := Caller("/org/freedesktop/ModemManager1/SIM", true, false, true)
  const BEARER_CALLER := Caller("/org/freedesktop/ModemManager1/Bearer", false, false, false)

  /** A caller with room for UIDs and physical devices refuses the empty string and nothing else; one without room
      for physical devices also fails, without a message, on the paths that are not object paths of its kind. */
  lemma FailsExactly(caller: Caller, str: string, r: Lookup)
    requires Stands(caller, str, r) && caller.takesUid
    ensures r == Rejected <==> str == ""
    ensures r == NullWrite <==> !caller.takesPhysdev && "/" <= str && !(caller.prefix <= str)
  {
    if NeedsPhysdev(caller, str) && !caller.takesPhysdev { ReadingUnique(caller, str, r, NullWrite); }
  }

  /** Such a string for a bearer, where a modem command takes it as a physical device. */
  lemma PathOfNothing()
    ensures Stands(BEARER_CALLER, "/foo", NullWrite)
    ensures forall r :: Stands(BEARER_CALLER, "/foo", r) ==> r == NullWrite
    ensures Stands(MODEM_CALLER, "/foo", ByPhysdev("/foo"))
  {
    assert |"/foo"| < |BEARER_CALLER.prefix| && |"/foo"| < |MODEM_CALLER.prefix|;
    forall r | Stands(BEARER_CALLER, "/foo", r) ensures r == NullWrite {
      ReadingUnique(BEARER_CALLER, "/foo", r, NullWrite);
    }
  }

  // ---------- finding the modem

  /** An object of the manager, with its modem interface if it has one. */
  datatype Node = Node(path: string, modem: Option<ModemIds>)

  /** The device and the physical device are missing when the modem has them empty. */
  datatype ModemIds = ModemIds(device: Option<string>, physdev: Option<string>)

  predicate Matches(n: Node, l: Lookup) {
    n.modem.Some? &&
    match l
    case FindAny => true
    case ByPath(p) => n.path == p
    case ByUid(u) => n.modem.value.device == Some(u)
    case ByPhysdev(d) => n.modem.value.physdev == Some(d)
    case _ => false
  }

  /** The source hands the missing identifier to g_str_equal, which does not take one. */
  predicate ComparesMissing(n: Node, l: Lookup) {
    n.modem.Some? && ((l.ByUid? && n.modem.value.device.None?) || (l.ByPhysdev? && n.modem.value.physdev.None?))
  }

  /** Nothing before place `i` stops the search. */
  ghost predicate Reaches(nodes: seq<Node>, i: nat, l: Lookup)
    requires i <= |nodes|
  {
    forall j :: 0 <= j < i ==> !Matches(nodes[j], l) && !ComparesMissing(nodes[j], l)
  }

  /** How the search for a modem ends; without a modem the process is left with a message. */
  datatype Choice = Chosen(node: Node) | NoModem | NullCompared(node: Node)

  /** find_modem: the first modem that matches, unless one before it lacks what is compared. */
  method FindModem(nodes: seq<Node>, l: Lookup) returns (choice: Choice)
    ensures match choice
            case NoModem => Reaches(nodes, |nodes|, l)
            case Chosen(n) => Matches(n, l) && exists i :: 0 <= i < |nodes| && nodes[i] == n && Reaches(nodes, i, l)
            case NullCompared(n) =>
              ComparesMissing(n, l) && exists i :: 0 <= i < |nodes| && nodes[i] == n && Reaches(nodes, i, l)
  {
    var k := 0;
    while k < |nodes|
      invariant 0 <= k <= |nodes| && Reaches(nodes, k, l)
    {
      var obj := nodes[k];
      if obj.modem.None? {
        k := k + 1;
        continue;
      }
      var modem := obj.modem.value;
      if (l.ByUid? && modem.device.None?) || (l.ByPhysdev? && modem.physdev.None?) {
        return NullCompared(obj);
      }
      if l.FindAny? || (l.ByPath? && obj.path == l.path) || (l.ByUid? && modem.device == Some(l.uid))
         || (l.ByPhysdev? && modem.physdev == Some(l.physdev)) {
        return Chosen(obj);
      }
      k := k + 1;
    }
    return NoModem;
  }

  /** What is in front of the place where the search stops: for a path, modems at other paths; for a UID or a physical
      device, modems that have another one; for "any", no modem. Other objects are passed over. */
  lemma ReachesMeans(nodes: seq<Node>, i: nat, l: Lookup)
    requires i <= |nodes|
    ensures Reaches(nodes, i, l) <==>
              forall j :: 0 <= j < i && nodes[j].modem.Some? ==>
                var ids := nodes[j].modem.value;
                match l
                case ByPath(p) => nodes[j].path != p
                case ByUid(u) => ids.device.Some? && ids.device.value != u
                case ByPhysdev(d) => ids.physdev.Some? && ids.physdev.value != d
                case FindAny => false
                case _ => true
  {
    if !Reaches(nodes, i, l) {
      var j :| 0 <= j < i && (Matches(nodes[j], l) || ComparesMissing(nodes[j], l));
    }
  }

  /** What is found: the modem at the path, with the UID, with the physical device, or any. */
  lemma FoundMeans(n: Node, l: Lookup)
    ensures Matches(n, l) <==>
              n.modem.Some? && match l
                               case ByPath(p) => n.path == p
                               case ByUid(u) => n.modem.value.device.Some? && n.modem.value.device.value == u
                               case ByPhysdev(d) => n.modem.value.physdev.Some? && n.modem.value.physdev.value == d
                               case FindAny => true
                               case _ => false
  {
  }

  /** The three ends exclude each other, and the object of the end is determined. */
  lemma ChoiceUnique(nodes: seq<Node>, l: Lookup, i: nat, j: nat)
    requires i < |nodes| && j < |nodes| && Reaches(nodes, i, l) && Reaches(nodes, j, l)
    requires Matches(nodes[i], l) || ComparesMissing(nodes[i], l)
    requires Matches(nodes[j], l) || ComparesMissing(nodes[j], l)
    ensures i == j && !(Matches(nodes[i], l) && ComparesMissing(nodes[i], l))
  {
  }
}
