/**
 * The four "is this private/local?" classifiers of the repository, each
 * written as the rule table its source spells out, and lemmas stating how
 * their verdicts relate.
 *
 * - `isInternalUrl` (src/lib/utils.ts) classifies a URL's hostname;
 * - `isUrlInLocalNetwork` (src/lib/client-utils.ts) is the same plus `127.0.0.1…`;
 * - the network-probe allow-list tests the raw `target` string;
 * - the network-test private-IP check tests the client address.
 *
 * Two of them use the prefix regex `^(10\.|172\.(1[6-9]|2[0-9]|3[0-1])\.|192\.168\.)`
 * for the three private blocks of section 3 of RFC 1918; the URL classifiers
 * have no 172.16/12 rule at all.
 */
module Locality {
  import opened Wrappers
  import opened Strings
  import opened Urls

  /** The second-octet alternatives `1[6-9]|2[0-9]|3[0-1]` of the regex. */
  predicate SecondOctetPattern(a: char, b: char) {
    (a == '1' && '6' <= b <= '9') || (a == '2' && IsDigit(b)) || (a == '3' && '0' <= b <= '1')
  }

  /** The alternative `172\.(1[6-9]|2[0-9]|3[0-1])\.` anchored at the start. */
  predicate Block172Pattern(s: string) {
    |s| >= 7 && s[..4] == "172." && SecondOctetPattern(s[4], s[5]) && s[6] == '.'
  }

  /** `/^(10\.|172\.(1[6-9]|2[0-9]|3[0-1])\.|192\.168\.)/.test(s)`. */
  predicate PrivatePrefixPattern(s: string) {
    StartsWith(s, "10.") || Block172Pattern(s) || StartsWith(s, "192.168.")
  }

  /** One test of a classifier: exact match, prefix, suffix or the private-prefix regex. */
  datatype Rule = Exact(s: string) | Prefix(p: string) | Suffix(p: string) | PrivatePrefix

  predicate Holds(r: Rule, h: string) {
    match r
    case Exact(s) => h == s
    case Prefix(p) => StartsWith(h, p)
    case Suffix(p) => EndsWith(h, p)
    case PrivatePrefix => PrivatePrefixPattern(h)
  }

  /** The `||` chain over a rule table. */
  predicate AnyHolds(rules: seq<Rule>, h: string)
    decreases |rules|
  {
    |rules| > 0 && (Holds(rules[0], h) || AnyHolds(rules[1..], h))
  }

  /** src/lib/utils.ts `isInternalUrl`, on the parsed hostname. */
  const InternalUrlRules: seq<Rule> :=
    [Exact("localhost"), Prefix("192.168."), Prefix("10."), Suffix(".local"), Suffix(".lan")]

  /** src/lib/client-utils.ts `isUrlInLocalNetwork`, on the parsed hostname. */
  const LocalNetworkRules: seq<Rule> :=
    [Exact("localhost"), Prefix("127.0.0.1"), Prefix("192.168."), Prefix("10."), Suffix(".local"), Suffix(".lan")]

  /** src/app/api/network-probe/route.ts allow-list, on the raw target. */
  const ProbeTargetRules: seq<Rule> :=
    [PrivatePrefix, Exact("localhost"), Suffix(".local"), Suffix(".lan")]

  /** src/app/api/network-test/route.ts private-address check, on the client address. */
  const PrivateIpRules: seq<Rule> :=
    [PrivatePrefix, Exact("127.0.0.1"), Exact("::1")]

  predicate IsInternalHost(h: string) {
    AnyHolds(InternalUrlRules, h)
  }

  predicate IsLocalNetworkHost(h: string) {
    AnyHolds(LocalNetworkRules, h)
  }

  predicate ProbeTargetAllowed(t: string) {
    AnyHolds(ProbeTargetRules, t)
  }

  predicate IsPrivateIp(ip: string) {
    AnyHolds(PrivateIpRules, ip)
  }

  /** `isInternalUrl(url)`: false, never an exception, when the URL does not parse. */
  predicate IsInternalUrl(parse: Parser, url: string) {
    match parse(url)
    case None => false
    case Some(u) => IsInternalHost(u.hostname)
  }

  /** `isUrlInLocalNetwork(url)`. */
  predicate IsUrlInLocalNetwork(parse: Parser, url: string) {
    match parse(url)
    case None => false
    case Some(u) => IsLocalNetworkHost(u.hostname)
  }

  // ---------------------------------------------------------------------------
  // Rule tables

  /** A table holds iff one of its rules does. */
  lemma {:induction false} AnyHoldsIff(rules: seq<Rule>, h: string)
    ensures AnyHolds(rules, h) <==> exists i :: 0 <= i < |rules| && Holds(rules[i], h)
    decreases |rules|
  {
    if |rules| > 0 {
      AnyHoldsIff(rules[1..], h);
      if exists i :: 0 <= i < |rules| && Holds(rules[i], h) {
        var i :| 0 <= i < |rules| && Holds(rules[i], h);
        if i > 0 {
          assert Holds(rules[1..][i - 1], h);
        }
      }
      if AnyHolds(rules[1..], h) {
        var i :| 0 <= i < |rules[1..]| && Holds(rules[1..][i], h);
        assert Holds(rules[i + 1], h);
      }
    }
  }

  /** A classifier whose table contains every rule of another accepts everything the other accepts. */
  lemma WiderTableAcceptsMore(narrow: seq<Rule>, wide: seq<Rule>, h: string)
    requires forall i :: 0 <= i < |narrow| ==> narrow[i] in wide
    requires AnyHolds(narrow, h)
    ensures AnyHolds(wide, h)
  {
    AnyHoldsIff(narrow, h);
    AnyHoldsIff(wide, h);
    var i :| 0 <= i < |narrow| && Holds(narrow[i], h);
    var j :| 0 <= j < |wide| && wide[j] == narrow[i];
    assert Holds(wide[j], h);
  }

  // ---------------------------------------------------------------------------
  // Each classifier spelled out

  /** `isInternalUrl` on a hostname is exactly the five tests of the source. */
  lemma InternalHostIff(h: string)
    ensures IsInternalHost(h) <==>
      h == "localhost" || StartsWith(h, "192.168.") || StartsWith(h, "10.")
      || EndsWith(h, ".local") || EndsWith(h, ".lan")
  {
    AnyHoldsIff(InternalUrlRules, h);
    assert forall i :: 0 <= i < 5 ==> InternalUrlRules[i] == [Exact("localhost"), Prefix("192.168."), Prefix("10."), Suffix(".local"), Suffix(".lan")][i];
  }

  /** `isInternalUrl(url)` holds iff the URL parses and its hostname passes one test. */
  lemma InternalUrlIff(parse: Parser, url: string)
    ensures IsInternalUrl(parse, url) <==>
      parse(url).Some? && IsInternalHost(parse(url).value.hostname)
    ensures parse(url).None? ==> !IsInternalUrl(parse, url)
  {
  }

  /** `isUrlInLocalNetwork` is `isInternalUrl` plus hostnames starting with "127.0.0.1". */
  lemma LocalNetworkHostIff(h: string)
    ensures IsLocalNetworkHost(h) <==> IsInternalHost(h) || StartsWith(h, "127.0.0.1")
  {
    AnyHoldsIff(LocalNetworkRules, h);
    InternalHostIff(h);
    assert LocalNetworkRules[1] == Prefix("127.0.0.1");
  }

  /** Every internal URL is also in the local network, for every parser. */
  lemma InternalUrlIsLocalNetwork(parse: Parser, url: string)
    requires IsInternalUrl(parse, url)
    ensures IsUrlInLocalNetwork(parse, url)
  {
    var h := parse(url).value.hostname;
    WiderTableAcceptsMore(InternalUrlRules, LocalNetworkRules, h);
  }

  /** The allow-list regex's 172 alternative is the numeric range 16..31 written with exactly two digits. */
  lemma Block172Numeric(s: string)
    ensures Block172Pattern(s) <==>
      |s| >= 7 && s[..4] == "172." && IsDigit(s[4]) && IsDigit(s[5]) && s[6] == '.'
      && 16 <= DigitsValue(s[4..6]) <= 31
  {
    if |s| >= 7 && IsDigit(s[4]) && IsDigit(s[5]) {
      var d := s[4..6];
      assert d == [s[4], s[5]];
      assert d[..1] == [s[4]] && [s[4]][..0] == [];
      assert DigitsValue([s[4]]) == s[4] as int - '0' as int;
      assert DigitsValue(d) == 10 * (s[4] as int - '0' as int) + (s[5] as int - '0' as int);
    }
  }

  /** The probe allow-list accepts exactly the internal hosts plus the 172.16–172.31 prefix. */
  lemma ProbeTargetIff(t: string)
    ensures ProbeTargetAllowed(t) <==> IsInternalHost(t) || Block172Pattern(t)
  {
    AnyHoldsIff(ProbeTargetRules, t);
    InternalHostIff(t);
    assert ProbeTargetRules[0] == PrivatePrefix;
    assert ProbeTargetRules[1] == Exact("localhost");
    assert ProbeTargetRules[2] == Suffix(".local");
    assert ProbeTargetRules[3] == Suffix(".lan");
  }

  /** The client address is private iff it matches the RFC 1918 prefix regex or is a loopback literal. */
  lemma PrivateIpIff(ip: string)
    ensures IsPrivateIp(ip) <==> PrivatePrefixPattern(ip) || ip == "127.0.0.1" || ip == "::1"
  {
    AnyHoldsIff(PrivateIpRules, ip);
    assert PrivateIpRules[0] == PrivatePrefix;
    assert PrivateIpRules[1] == Exact("127.0.0.1");
    assert PrivateIpRules[2] == Exact("::1");
  }

  // ---------------------------------------------------------------------------
  // How the classifiers drift apart

  /** Whatever `isInternalUrl` accepts as a hostname, the probe allow-list accepts as a target. */
  lemma InternalHostIsProbeTarget(h: string)
    requires IsInternalHost(h)
    ensures ProbeTargetAllowed(h)
  {
    ProbeTargetIff(h);
  }

  /** A private, non-loopback client address is an allowed probe target. */
  lemma PrivateIpIsProbeTarget(ip: string)
    requires IsPrivateIp(ip) && ip != "127.0.0.1" && ip != "::1"
    ensures ProbeTargetAllowed(ip)
  {
    PrivateIpIff(ip);
    AnyHoldsIff(ProbeTargetRules, ip);
    assert Holds(ProbeTargetRules[0], ip);
  }

  /** 172.16.0.1 is private for the probe and the client-address check, but not for the URL classifiers. */
  lemma Block172Disagreement()
    ensures ProbeTargetAllowed("172.16.0.1")
    ensures IsPrivateIp("172.16.0.1")
    ensures !IsInternalHost("172.16.0.1")
    ensures !IsLocalNetworkHost("172.16.0.1")
  {
    var h := "172.16.0.1";
    assert Block172Pattern(h);
    ProbeTargetIff(h);
    PrivateIpIff(h);
    InternalHostIff(h);
    LocalNetworkHostIff(h);
    NotStartsWith(h, "192.168.", 1);
    NotStartsWith(h, "10.", 1);
    NotStartsWith(h, "127.0.0.1", 1);
    NotEndsWith(h, ".local", 0);
    NotEndsWith(h, ".lan", 0);
  }

  /** 127.0.0.1 is local for `isUrlInLocalNetwork` and the client-address check only. */
  lemma LoopbackDisagreement()
    ensures IsLocalNetworkHost("127.0.0.1")
    ensures IsPrivateIp("127.0.0.1")
    ensures !IsInternalHost("127.0.0.1")
    ensures !ProbeTargetAllowed("127.0.0.1")
  {
    var h := "127.0.0.1";
    assert !IsInternalHost(h) by {
      InternalHostIff(h);
      NotStartsWith(h, "192.168.", 1);
      NotStartsWith(h, "10.", 1);
      NotEndsWith(h, ".local", 0);
      NotEndsWith(h, ".lan", 0);
    }
    assert IsLocalNetworkHost(h) by {
      LocalNetworkHostIff(h);
    }
    assert IsPrivateIp(h) by {
      PrivateIpIff(h);
    }
    assert !ProbeTargetAllowed(h) by {
      ProbeTargetIff(h);
    }
  }

  /** A target none of whose allow-list tests can pass: not "10."/"192.168."/"172.1x."-shaped, not a .local/.lan name. */
  lemma RefuseTarget(t: string, i: nat, j: nat, k: nat)
    requires t != "localhost"
    requires !Block172Pattern(t)
    requires i < 3 && (i >= |t| || t[i] != "10."[i])
    requires j < 8 && (j >= |t| || t[j] != "192.168."[j])
    requires k < 4 && (k >= |t| || t[|t| - 1 - k] != ".lan"[3 - k]) && (k >= |t| || t[|t| - 1 - k] != ".local"[5 - k])
    ensures !ProbeTargetAllowed(t)
  {
    ProbeTargetIff(t);
    InternalHostIff(t);
    NotStartsWith(t, "10.", i);
    NotStartsWith(t, "192.168.", j);
    NotEndsWith(t, ".lan", k);
    NotEndsWith(t, ".local", k);
  }

  /** The neighbours of the 172.16/12 block are refused. */
  lemma Block172NeighboursRefused()
    ensures !ProbeTargetAllowed("172.15.0.1")
    ensures !ProbeTargetAllowed("172.32.0.1")
  {
    RefuseTarget("172.15.0.1", 1, 1, 0);
    RefuseTarget("172.32.0.1", 1, 1, 0);
  }

  /** A public address is refused. */
  lemma PublicAddressRefused()
    ensures !ProbeTargetAllowed("8.8.8.8")
  {
    RefuseTarget("8.8.8.8", 0, 0, 0);
  }

  /** The prefix test is on the raw string, so a DNS name starting with "10." passes. */
  lemma PrefixAcceptsHostName()
    ensures ProbeTargetAllowed("10.example.com")
    ensures ProbeTargetAllowed("172.31.255.255")
  {
    ProbeTargetIff("10.example.com");
    InternalHostIff("10.example.com");
    assert StartsWith("10.example.com", "10.");
    ProbeTargetIff("172.31.255.255");
    assert Block172Pattern("172.31.255.255");
  }

  /** The literal "unknown" the network test falls back to is never private. */
  lemma UnknownIsNotPrivate()
    ensures !IsPrivateIp("unknown")
  {
    PrivateIpIff("unknown");
    NotStartsWith("unknown", "10.", 0);
    NotStartsWith("unknown", "192.168.", 0);
  }
}
