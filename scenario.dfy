/**
 * The rule list RuleListTest builds, and what checkRules returns for its
 * four packets: with TCPRule's matcher corrected the answers are the ones
 * the test expects; with the matcher as written the fourth packet raises a
 * NullPointerException at TCP rule 2.
 */
module Scenario {
  import opened Common
  import opened Text
  import opened Packets
  import opened RuleSpec
  import opened RuleFacts
  import opened Parser
  import opened ParserFacts
  import opened RuleLists

  /** 192.168.1.0/24 */
  const LocalNet := Subnet(0xC0A8_0100, 24)
  /** 0.0.0.0/0 */
  const Anywhere := Subnet(0, 0)
  /** 192.168.1.1 */
  const LocalHost: Address := 0xC0A8_0101
  /** 1.2.3.4 */
  const RemoteHost: Address := 0x0102_0304

  lemma TestAddresses()
    ensures InRange(LocalNet, LocalHost) && !InRange(LocalNet, RemoteHost)
    ensures InRange(Anywhere, LocalHost) && InRange(Anywhere, RemoteHost)
  {
    Pow2Values();
    assert BlockSize(LocalNet) == 0x100;
    WholeSpaceSubnet(Anywhere, LocalHost);
    WholeSpaceSubnet(Anywhere, RemoteHost);
  }

  // ---------------------------------------------------------------- the rules

  const Local := "192.168.1.0/24"
  const Any := "0.0.0.0/0"

  /** "srcAddress <local> dstAddress <any> srcPort <port> action accept" */
  function OutboundPairs(local: string, any: string, port: string): seq<Pair> {
    [("srcAddress", local), ("dstAddress", any), ("srcPort", port), ("action", "accept")]
  }

  /** "srcAddress <any> dstAddress <local> dstPort <port> action deny" */
  function InboundPairs(local: string, any: string, port: string): seq<Pair> {
    [("srcAddress", any), ("dstAddress", local), ("dstPort", port), ("action", "deny")]
  }

  /** The rule an outbound line builds: local subnet to anywhere, one source port, accept. */
  function Outbound(t: Tier, port: int, local: Subnet, any: Subnet): RuleView {
    Fresh(t).(ruleAction := Some(ACCEPT), srcAddressMatch := Some(local),
              dstAddressMatch := Some(any), srcPortRanges := Some([PortRange(port, port)]))
  }

  /** The rule an inbound line builds: anywhere to the local subnet, one destination port, deny. */
  function Inbound(t: Tier, port: int, local: Subnet, any: Subnet): RuleView {
    Fresh(t).(ruleAction := Some(DENY), srcAddressMatch := Some(any),
              dstAddressMatch := Some(local), dstPortRanges := Some([PortRange(port, port)]))
  }

  lemma PortValues()
    ensures ParsePortRange("25") == Ok(PortRange(25, 25))
    ensures ParsePortRange("53") == Ok(PortRange(53, 53))
  {
    assert "25" == NatText(25);
    assert "53" == NatText(53);
    ParseIntNatText(25);
    ParseIntNatText(53);
  }

  /** Four pairs applied one after the other. */
  lemma ApplyFour(v: RuleView, ps: seq<Pair>, v1: RuleView, v2: RuleView, v3: RuleView, v4: RuleView)
    requires |ps| == 4
    requires SetField(v, ps[0].0, ps[0].1) == Ok(v1) && SetField(v1, ps[1].0, ps[1].1) == Ok(v2)
    requires SetField(v2, ps[2].0, ps[2].1) == Ok(v3) && SetField(v3, ps[3].0, ps[3].1) == Ok(v4)
    ensures ApplyAll(v, ps) == Ok(v4)
  {
    var ps1 := ps[1..];
    var ps2 := ps1[1..];
    var ps3 := ps2[1..];
    assert ps3[1..] == [];
    assert ApplyAll(v3, ps3) == Ok(v4);
    assert ApplyAll(v2, ps2) == Ok(v4);
    assert ApplyAll(v1, ps1) == Ok(v4);
  }

  lemma SetAddress(v: RuleView, name: string, text: string, s: Subnet)
    requires HasAddresses(v.tier) && ParseCidr(text) == Some(s)
    requires name == "srcAddress" || name == "dstAddress"
    ensures SetField(v, name, text) ==
      Ok(if name == "srcAddress" then v.(srcAddressMatch := Some(s)) else v.(dstAddressMatch := Some(s)))
  {
  }

  lemma SetPort(v: RuleView, name: string, text: string, n: int)
    requires HasPorts(v.tier) && ParsePortRange(text) == Ok(PortRange(n, n))
    requires name == "srcPort" || name == "dstPort"
    ensures SetField(v, name, text) ==
      Ok(if name == "srcPort" then v.(srcPortRanges := Some(RangesOf(v.srcPortRanges) + [PortRange(n, n)]))
         else v.(dstPortRanges := Some(RangesOf(v.dstPortRanges) + [PortRange(n, n)])))
  {
  }

  lemma SetAction(v: RuleView, word: string, a: RuleAction)
    requires ActionToRuleAction(word) == Ok(a)
    ensures SetField(v, "action", word) == Ok(v.(ruleAction := Some(a)))
  {
  }

  lemma ApplyOutbound(t: Tier, local: string, any: string, port: string, n: int)
    requires HasPorts(t) && ParsePortRange(port) == Ok(PortRange(n, n))
    requires ParseCidr(local) == Some(LocalNet) && ParseCidr(any) == Some(Anywhere)
    ensures ApplyAll(Initial(t), OutboundPairs(local, any, port)) == Ok(Outbound(t, n, LocalNet, Anywhere))
  {
    var v1 := Initial(t).(srcAddressMatch := Some(LocalNet));
    var v2 := v1.(dstAddressMatch := Some(Anywhere));
    var v3 := v2.(srcPortRanges := Some([PortRange(n, n)]));
    SetAddress(Initial(t), "srcAddress", local, LocalNet);
    SetAddress(v1, "dstAddress", any, Anywhere);
    SetPort(v2, "srcPort", port, n);
    assert RangesOf(v2.srcPortRanges) + [PortRange(n, n)] == [PortRange(n, n)];
    SetAction(v3, "accept", ACCEPT);
    ApplyFour(Initial(t), OutboundPairs(local, any, port), v1, v2, v3, Outbound(t, n, LocalNet, Anywhere));
  }

  lemma ApplyInbound(t: Tier, local: string, any: string, port: string, n: int)
    requires HasPorts(t) && ParsePortRange(port) == Ok(PortRange(n, n))
    requires ParseCidr(local) == Some(LocalNet) && ParseCidr(any) == Some(Anywhere)
    ensures ApplyAll(Initial(t), InboundPairs(local, any, port)) == Ok(Inbound(t, n, LocalNet, Anywhere))
  {
    var v1 := Initial(t).(srcAddressMatch := Some(Anywhere));
    var v2 := v1.(dstAddressMatch := Some(LocalNet));
    var v3 := v2.(dstPortRanges := Some([PortRange(n, n)]));
    SetAddress(Initial(t), "srcAddress", any, Anywhere);
    SetAddress(v1, "dstAddress", local, LocalNet);
    SetPort(v2, "dstPort", port, n);
    assert RangesOf(v2.dstPortRanges) + [PortRange(n, n)] == [PortRange(n, n)];
    SetAction(v3, "deny", DENY);
    ApplyFour(Initial(t), InboundPairs(local, any, port), v1, v2, v3, Inbound(t, n, LocalNet, Anywhere));
  }

  lemma ApplyAcceptAll(t: Tier)
    requires HasPorts(t)
    ensures ApplyAll(Initial(t), [("action", "accept")]) == Ok(Fresh(t).(ruleAction := Some(ACCEPT)))
  {
    assert [("action", "accept")][1..] == [];
  }

  /**
   * The six rules of the test's setUp, in the order they are added, each
   * with the metadata the test gives it after adding it; `local` and `any`
   * are the two subnets the lines name.
   */
  function TestRulesOn(local: Subnet, any: Subnet): seq<RuleView> {
    [ Outbound(TCP, 25, local, any).(metadata := Some("TCP rule 1")),
      Inbound(TCP, 25, local, any).(metadata := Some("TCP rule 2")),
      Fresh(TCP).(ruleAction := Some(ACCEPT), metadata := Some("TCP rule 3")),
      Outbound(UDP, 53, local, any).(metadata := Some("UDP rule 1")),
      Inbound(UDP, 53, local, any).(metadata := Some("UDP rule 2")),
      Fresh(UDP).(ruleAction := Some(ACCEPT), metadata := Some("UDP rule 3")) ]
  }

  /** The rules of setUp with 192.168.1.0/24 and 0.0.0.0/0. */
  function TestRules(): seq<RuleView> {
    TestRulesOn(LocalNet, Anywhere)
  }

  lemma TestWords()
    ensures NoSpace("tcp") && NoSpace("udp")
    ensures WordPair(("srcAddress", Local)) && WordPair(("dstAddress", Local))
    ensures WordPair(("srcAddress", Any)) && WordPair(("dstAddress", Any))
    ensures WordPair(("srcPort", "25")) && WordPair(("dstPort", "25"))
    ensures WordPair(("srcPort", "53")) && WordPair(("dstPort", "53"))
    ensures WordPair(("action", "accept")) && WordPair(("action", "deny"))
  {
  }

  /** The subnet texts of the test, read as subnets. */
  lemma TestSubnets()
    ensures ParseCidr(Local) == Some(LocalNet) && ParseCidr(Any) == Some(Anywhere)
  {
    ParseLocalNet();
    ParseWholeSpace();
  }

  lemma OutboundLine(keyword: string, t: Tier, local: string, any: string, port: string, n: int)
    requires TierOf(keyword) == Some(t) && NoSpace(keyword) && HasPorts(t)
    requires ParseCidr(local) == Some(LocalNet) && ParseCidr(any) == Some(Anywhere)
    requires ParsePortRange(port) == Ok(PortRange(n, n))
    requires WordPair(("srcAddress", local)) && WordPair(("dstAddress", any))
    requires WordPair(("srcPort", port)) && WordPair(("action", "accept"))
    ensures ParseLine(SpacedLine(keyword, OutboundPairs(local, any, port))) == Ok(Outbound(t, n, LocalNet, Anywhere))
  {
    var ps := OutboundPairs(local, any, port);
    assert forall i :: 0 <= i < |ps| ==> WordPair(ps[i]);
    ParseSpacedLine(keyword, t, ps);
    ApplyOutbound(t, local, any, port, n);
  }

  lemma InboundLine(keyword: string, t: Tier, local: string, any: string, port: string, n: int)
    requires TierOf(keyword) == Some(t) && NoSpace(keyword) && HasPorts(t)
    requires ParseCidr(local) == Some(LocalNet) && ParseCidr(any) == Some(Anywhere)
    requires ParsePortRange(port) == Ok(PortRange(n, n))
    requires WordPair(("srcAddress", any)) && WordPair(("dstAddress", local))
    requires WordPair(("dstPort", port)) && WordPair(("action", "deny"))
    ensures ParseLine(SpacedLine(keyword, InboundPairs(local, any, port))) == Ok(Inbound(t, n, LocalNet, Anywhere))
  {
    var ps := InboundPairs(local, any, port);
    assert forall i :: 0 <= i < |ps| ==> WordPair(ps[i]);
    ParseSpacedLine(keyword, t, ps);
    ApplyInbound(t, local, any, port, n);
  }

  lemma AcceptAllLine(keyword: string, t: Tier)
    requires TierOf(keyword) == Some(t) && NoSpace(keyword) && HasPorts(t)
    requires WordPair(("action", "accept"))
    ensures ParseLine(SpacedLine(keyword, [("action", "accept")])) == Ok(Fresh(t).(ruleAction := Some(ACCEPT)))
  {
    ParseSpacedLine(keyword, t, [("action", "accept")]);
    ApplyAcceptAll(t);
  }

  /** setUp's three TCP lines, each written as its keyword and its pairs, parse to the first three rules. */
  lemma TcpTestLinesParse()
    ensures ParseLine(SpacedLine("tcp", OutboundPairs(Local, Any, "25"))) == Ok(Outbound(TCP, 25, LocalNet, Anywhere))
    ensures ParseLine(SpacedLine("tcp", InboundPairs(Local, Any, "25"))) == Ok(Inbound(TCP, 25, LocalNet, Anywhere))
    ensures ParseLine(SpacedLine("tcp", [("action", "accept")])) == Ok(Fresh(TCP).(ruleAction := Some(ACCEPT)))
  {
    TestWords();
    TestSubnets();
    PortValues();
    OutboundLine("tcp", TCP, Local, Any, "25", 25);
    InboundLine("tcp", TCP, Local, Any, "25", 25);
    AcceptAllLine("tcp", TCP);
  }

  /** setUp's three UDP lines parse to the last three rules. */
  lemma UdpTestLinesParse()
    ensures ParseLine(SpacedLine("udp", OutboundPairs(Local, Any, "53"))) == Ok(Outbound(UDP, 53, LocalNet, Anywhere))
    ensures ParseLine(SpacedLine("udp", InboundPairs(Local, Any, "53"))) == Ok(Inbound(UDP, 53, LocalNet, Anywhere))
    ensures ParseLine(SpacedLine("udp", [("action", "accept")])) == Ok(Fresh(UDP).(ruleAction := Some(ACCEPT)))
  {
    TestWords();
    TestSubnets();
    PortValues();
    OutboundLine("udp", UDP, Local, Any, "53", 53);
    InboundLine("udp", UDP, Local, Any, "53", 53);
    AcceptAllLine("udp", UDP);
  }

  // ---------------------------------------------------------------- the packets

  /** tcpPacket1: 192.168.1.1:25 to 1.2.3.4:9876 */
  const TcpPacket1 := Packet(true, true, false, LocalHost, RemoteHost, 25, 9876)
  /** tcpPacket2: 1.2.3.4:9876 to 192.168.1.1:25 */
  const TcpPacket2 := Packet(true, true, false, RemoteHost, LocalHost, 9876, 25)
  /** udpPacket1: 192.168.1.1:53 to 1.2.3.4:9876 */
  const UdpPacket1 := Packet(true, false, true, LocalHost, RemoteHost, 53, 9876)
  /** udpPacket2: 1.2.3.4:9876 to 192.168.1.1:53 */
  const UdpPacket2 := Packet(true, false, true, RemoteHost, LocalHost, 9876, 53)

  lemma OnePort(port: int)
    ensures InAnyRange([PortRange(port, port)], port)
    ensures forall q :: q != port ==> !InAnyRange([PortRange(port, port)], q)
  {
    assert [PortRange(port, port)][0].low <= port <= [PortRange(port, port)][0].high;
  }

  /** The six rules, one by one. */
  lemma TestRulesAt(L: Subnet, A: Subnet)
    ensures |TestRulesOn(L, A)| == 6
    ensures TestRulesOn(L, A)[0] == Outbound(TCP, 25, L, A).(metadata := Some("TCP rule 1"))
    ensures TestRulesOn(L, A)[1] == Inbound(TCP, 25, L, A).(metadata := Some("TCP rule 2"))
    ensures TestRulesOn(L, A)[2].tier == TCP
    ensures TestRulesOn(L, A)[3] == Outbound(UDP, 53, L, A).(metadata := Some("UDP rule 1"))
    ensures TestRulesOn(L, A)[4] == Inbound(UDP, 53, L, A).(metadata := Some("UDP rule 2"))
  {
  }

  /** An outbound rule matches a packet of its protocol from the local subnet on its port. */
  lemma OutboundMatches(t: Tier, n: int, L: Subnet, A: Subnet, m: Option<string>, p: Packet)
    requires HasPorts(t) && (if t == TCP then p.hasTCP else p.hasUDP)
    requires p.hasIPv4 && p.srcPort == n
    requires InRange(L, p.srcAddr) && InRange(A, p.dstAddr)
    ensures Matches(Outbound(t, n, L, A).(metadata := m), p)
  {
    OnePort(n);
  }

  /** An outbound rule never matches a packet from outside the local subnet. */
  lemma OutboundMissesForeign(t: Tier, n: int, L: Subnet, A: Subnet, m: Option<string>, p: Packet)
    requires HasPorts(t) && !InRange(L, p.srcAddr)
    ensures !Matches(Outbound(t, n, L, A).(metadata := m), p)
  {
  }

  /** An inbound rule matches a packet of its protocol from anywhere to the local subnet on its port. */
  lemma InboundMatches(t: Tier, n: int, L: Subnet, A: Subnet, m: Option<string>, p: Packet)
    requires HasPorts(t) && (if t == TCP then p.hasTCP else p.hasUDP)
    requires p.hasIPv4 && p.dstPort == n
    requires InRange(A, p.srcAddr) && InRange(L, p.dstAddr)
    ensures Matches(Inbound(t, n, L, A).(metadata := m), p)
  {
    OnePort(n);
  }

  /** A UDP packet from the local subnet with source port 53 reaches UDP rule 1. */
  lemma UdpOutboundVerdict(L: Subnet, A: Subnet, p: Packet)
    requires p.hasIPv4 && p.hasUDP && !p.hasTCP && p.srcPort == 53
    requires InRange(L, p.srcAddr) && InRange(A, p.dstAddr)
    ensures FirstMatch(TestRulesOn(L, A), p) == Some(3)
  {
    var rs := TestRulesOn(L, A);
    TestRulesAt(L, A);
    OutboundMatches(UDP, 53, L, A, Some("UDP rule 1"), p);
    assert forall j :: 0 <= j < 3 ==> rs[j].tier == TCP;
    FirstMatchAt(rs, p, 3);
  }

  /** A UDP packet from outside to the local subnet, destination port 53, reaches UDP rule 2. */
  lemma UdpInboundVerdict(L: Subnet, A: Subnet, p: Packet)
    requires p.hasIPv4 && p.hasUDP && !p.hasTCP && p.dstPort == 53
    requires !InRange(L, p.srcAddr) && InRange(A, p.srcAddr) && InRange(L, p.dstAddr)
    ensures FirstMatch(TestRulesOn(L, A), p) == Some(4)
  {
    var rs := TestRulesOn(L, A);
    TestRulesAt(L, A);
    OutboundMissesForeign(UDP, 53, L, A, Some("UDP rule 1"), p);
    InboundMatches(UDP, 53, L, A, Some("UDP rule 2"), p);
    assert forall j :: 0 <= j < 3 ==> rs[j].tier == TCP;
    FirstMatchAt(rs, p, 4);
  }

  /** A TCP packet from the local subnet with source port 25 reaches TCP rule 1. */
  lemma TcpOutboundVerdict(L: Subnet, A: Subnet, p: Packet)
    requires p.hasIPv4 && p.hasTCP && p.srcPort == 25
    requires InRange(L, p.srcAddr) && InRange(A, p.dstAddr)
    ensures FirstMatch(TestRulesOn(L, A), p) == Some(0)
  {
    TestRulesAt(L, A);
    OutboundMatches(TCP, 25, L, A, Some("TCP rule 1"), p);
    FirstMatchAt(TestRulesOn(L, A), p, 0);
  }

  /** A TCP packet from outside to the local subnet, destination port 25, reaches TCP rule 2. */
  lemma TcpInboundVerdict(L: Subnet, A: Subnet, p: Packet)
    requires p.hasIPv4 && p.hasTCP && p.dstPort == 25
    requires !InRange(L, p.srcAddr) && InRange(A, p.srcAddr) && InRange(L, p.dstAddr)
    ensures FirstMatch(TestRulesOn(L, A), p) == Some(1)
  {
    TestRulesAt(L, A);
    OutboundMissesForeign(TCP, 25, L, A, Some("TCP rule 1"), p);
    InboundMatches(TCP, 25, L, A, Some("TCP rule 2"), p);
    FirstMatchAt(TestRulesOn(L, A), p, 1);
  }

  /** udpPacket1 (192.168.1.1:53 to 1.2.3.4:9876) reaches UDP rule 1. */
  lemma UdpPacket1Verdict()
    ensures FirstMatch(TestRules(), UdpPacket1) == Some(3)
  {
    TestAddresses();
    UdpOutboundVerdict(LocalNet, Anywhere, UdpPacket1);
  }

  /** udpPacket2 (1.2.3.4:9876 to 192.168.1.1:53) reaches UDP rule 2. */
  lemma UdpPacket2Verdict()
    ensures FirstMatch(TestRules(), UdpPacket2) == Some(4)
  {
    TestAddresses();
    UdpInboundVerdict(LocalNet, Anywhere, UdpPacket2);
  }

  /** tcpPacket1 (192.168.1.1:25 to 1.2.3.4:9876) reaches TCP rule 1. */
  lemma TcpPacket1Verdict()
    ensures FirstMatch(TestRules(), TcpPacket1) == Some(0)
  {
    TestAddresses();
    TcpOutboundVerdict(LocalNet, Anywhere, TcpPacket1);
  }

  /** tcpPacket2 (1.2.3.4:9876 to 192.168.1.1:25) reaches TCP rule 2. */
  lemma TcpPacket2Verdict()
    ensures FirstMatch(TestRules(), TcpPacket2) == Some(1)
  {
    TestAddresses();
    TcpInboundVerdict(LocalNet, Anywhere, TcpPacket2);
  }

  /** test(): each packet reaches the rule the test names. */
  lemma RuleListTestVerdicts()
    ensures FirstMatch(TestRules(), UdpPacket1) == Some(3) && TestRules()[3].metadata == Some("UDP rule 1")
    ensures FirstMatch(TestRules(), UdpPacket2) == Some(4) && TestRules()[4].metadata == Some("UDP rule 2")
    ensures FirstMatch(TestRules(), TcpPacket1) == Some(0) && TestRules()[0].metadata == Some("TCP rule 1")
    ensures FirstMatch(TestRules(), TcpPacket2) == Some(1) && TestRules()[1].metadata == Some("TCP rule 2")
  {
    TestRulesAt(LocalNet, Anywhere);
    UdpPacket1Verdict();
    UdpPacket2Verdict();
    TcpPacket1Verdict();
    TcpPacket2Verdict();
  }

  // ---------------------------------------------------------------- TCPRule.matchesRule as written

  /** matchesRule of each rule with TCPRule's as written; a TCP matcher may raise. */
  function MatchesAsWritten(v: RuleView, p: Packet): Result<bool, Failure> {
    if v.tier == TCP then TcpMatchesAsWritten(v, p) else Ok(Matches(v, p))
  }

  /** checkRules with TCPRule.matchesRule as written: an exception in a matcher escapes. */
  function FirstMatchAsWritten(views: seq<RuleView>, p: Packet): (r: Result<Option<nat>, Failure>)
    ensures r.Ok? && r.value.Some? ==> r.value.value < |views|
    decreases |views|
  {
    if views == [] then Ok(None)
    else
      var m := MatchesAsWritten(views[0], p);
      if m.Err? then Err(m.error)
      else if m.value then Ok(Some(0))
      else
        var rest := FirstMatchAsWritten(views[1..], p);
        if rest.Err? then rest
        else if rest.value.None? then Ok(None) else Ok(Some(rest.value.value + 1))
  }

  /** Where no matcher raises and each answers as corrected, checkRules as written picks the same rule. */
  lemma {:induction false} FirstMatchAsWrittenAgrees(views: seq<RuleView>, p: Packet)
    requires forall i :: 0 <= i < |views| ==> MatchesAsWritten(views[i], p) == Ok(Matches(views[i], p))
    ensures FirstMatchAsWritten(views, p) == Ok(FirstMatch(views, p))
    decreases |views|
  {
    if views != [] {
      assert MatchesAsWritten(views[0], p) == Ok(Matches(views[0], p));
      forall i | 0 <= i < |views[1..]|
        ensures MatchesAsWritten(views[1..][i], p) == Ok(Matches(views[1..][i], p))
      {
        assert views[1..][i] == views[i + 1];
      }
      FirstMatchAsWrittenAgrees(views[1..], p);
    }
  }

  /**
   * With the matcher as written, a TCP packet that TCP rule 1 turns away by
   * its source port makes TCP rule 2 raise: that rule has destination ports
   * but no source ports, and the destination-port loop walks the (null)
   * source list. The exception escapes checkRules.
   */
  lemma TcpInboundAsWritten(L: Subnet, A: Subnet, p: Packet)
    requires p.hasTCP && p.srcPort != 25
    ensures TcpMatchesAsWritten(TestRulesOn(L, A)[1], p) == Err(NullPointer)
    ensures FirstMatchAsWritten(TestRulesOn(L, A), p) == Err(NullPointer)
  {
    var rs := TestRulesOn(L, A);
    TestRulesAt(L, A);
    OnePort(25);
    assert MatchesAsWritten(rs[0], p) == Ok(false);
    assert rs[1..][0] == rs[1];
    assert MatchesAsWritten(rs[1..][0], p) == Err(NullPointer);
    assert FirstMatchAsWritten(rs[1..], p) == Err(NullPointer);
  }

  /** tcpPacket2: as written the test's last check raises; corrected it reaches TCP rule 2. */
  lemma TcpRule2AsWritten()
    ensures TcpMatchesAsWritten(TestRules()[1], TcpPacket2) == Err(NullPointer)
    ensures FirstMatchAsWritten(TestRules(), TcpPacket2) == Err(NullPointer)
    ensures FirstMatch(TestRules(), TcpPacket2) == Some(1)
  {
    TcpInboundAsWritten(LocalNet, Anywhere, TcpPacket2);
    TcpPacket2Verdict();
  }
}
