/**
 * The abstract state of a rule and the pure meaning of every rule operation:
 * setting a field, applying a list of field/value pairs, matching a packet,
 * and rendering the rule as text.
 *
 * The Java classes Rule, IPRule, TCPRule and UDPRule form a chain of
 * subclasses; here one value records which of them a rule is (its tier) and
 * holds every field of the chain. Fields a tier does not declare stay at
 * their initial value (see WellFormed).
 */
module RuleSpec {
  import opened Common
  import opened Text
  import opened Packets

  /** Which class of the chain a rule is. */
  datatype Tier = Base | IP | TCP | UDP

  /** An inclusive port range as stored: neither order nor bounds are checked. */
  datatype PortRange = PortRange(low: int, high: int)

  /** A field/value pair of the rule language, in the order written. */
  type Pair = (string, string)

  /**
   * Every field of the class chain. An absent option stands for Java's null;
   * the `...Flag` fields are the match flags the classes declare but only
   * ever assign false.
   */
  datatype RuleView = RuleView(
    tier: Tier,
    ruleAction: Option<RuleAction>,
    metadata: Option<string>,
    srcAddressMatch: Option<Subnet>, srcAddressMatchFlag: bool,
    dstAddressMatch: Option<Subnet>, dstAddressMatchFlag: bool,
    srcPortRanges: Option<seq<PortRange>>, srcPortRangeMatchFlag: bool,
    dstPortRanges: Option<seq<PortRange>>, dstPortRangeMatchFlag: bool)

  predicate HasAddresses(t: Tier) {
    t != Base
  }

  predicate HasPorts(t: Tier) {
    t == TCP || t == UDP
  }

  /** The state the no-argument constructors leave: no action, empty metadata, no criteria. */
  function Fresh(t: Tier): RuleView {
    RuleView(t, None, Some(""), None, false, None, false, None, false, None, false)
  }

  /**
   * The state in which the list constructors start applying pairs. The base
   * class's list constructor does not call the no-argument one, so its
   * metadata stays null; the subclasses' list constructors call super().
   */
  function Initial(t: Tier): RuleView {
    if t == Base then Fresh(t).(metadata := None) else Fresh(t)
  }

  /** What every reachable rule satisfies. */
  predicate WellFormed(v: RuleView) {
    && (v.tier != Base ==> v.metadata.Some?)
    && (!HasAddresses(v.tier) ==> v.srcAddressMatch.None? && v.dstAddressMatch.None?)
    && (!HasPorts(v.tier) ==> v.srcPortRanges.None? && v.dstPortRanges.None?)
    && v.srcPortRanges != Some([]) && v.dstPortRanges != Some([])
    && !v.srcAddressMatchFlag && !v.dstAddressMatchFlag
    && !v.srcPortRangeMatchFlag && !v.dstPortRangeMatchFlag
  }

  // ---------------------------------------------------------------- fields

  /** Rule.actionToRuleAction: the exact, case-sensitive action literals. */
  function ActionToRuleAction(action: string): Result<RuleAction, Failure> {
    if action == "accept" then Ok(ACCEPT)
    else if action == "deny" then Ok(DENY)
    else if action == "reject" then Ok(REJECT)
    else Err(UnhandledFieldName(action))
  }

  /** The literal a rule's text uses for an action. */
  function ActionWord(a: RuleAction): string {
    match a
    case ACCEPT => "accept"
    case DENY => "deny"
    case REJECT => "reject"
  }

  /**
   * The port-value parsing of TCPRule and UDPRule: "n" is the range n-n; a
   * value holding '-' must split (String.split, trailing empty pieces
   * dropped) into exactly two integers. Any failure is InvalidFieldValue.
   */
  function ParsePortRange(value: string): Result<PortRange, Failure> {
    if '-' in value then
      var parts := SplitChar(value, '-');
      if |parts| != 2 then Err(InvalidFieldValue(value))
      else
        var start, end := ParseInt(parts[0]), ParseInt(parts[1]);
        if start.None? || end.None? then Err(InvalidFieldValue(value))
        else Ok(PortRange(start.value, end.value))
    else
      var n := ParseInt(value);
      if n.None? then Err(InvalidFieldValue(value)) else Ok(PortRange(n.value, n.value))
  }

  /** The ranges of a list that may be null (a null list has none). */
  function RangesOf(o: Option<seq<PortRange>>): seq<PortRange> {
    if o.None? then [] else o.value
  }

  /** Rule.setRuleField: only "action" is known. */
  function SetBaseField(v: RuleView, fieldName: string, value: string): Result<RuleView, Failure> {
    if fieldName == "action" then
      var a := ActionToRuleAction(value);
      if a.Err? then Err(a.error) else Ok(v.(ruleAction := Some(a.value)))
    else Err(UnhandledFieldName(fieldName))
  }

  /**
   * IPRule.setRuleField: an address field replaces the subnet; a malformed
   * subnet is the library's IllegalArgumentException. Other names go to the
   * base class.
   */
  function SetAddressField(v: RuleView, fieldName: string, value: string): Result<RuleView, Failure> {
    if fieldName == "srcAddress" then
      var s := ParseCidr(value);
      if s.None? then Err(IllegalArgument(value)) else Ok(v.(srcAddressMatch := Some(s.value)))
    else if fieldName == "dstAddress" then
      var s := ParseCidr(value);
      if s.None? then Err(IllegalArgument(value)) else Ok(v.(dstAddressMatch := Some(s.value)))
    else SetBaseField(v, fieldName, value)
  }

  /**
   * TCPRule.setRuleField and UDPRule.setRuleField (the same code): a port
   * field appends one range to its list, creating the list on first use.
   * Other names go to IPRule.
   */
  function SetPortField(v: RuleView, fieldName: string, value: string): Result<RuleView, Failure> {
    if fieldName == "srcPort" then
      var r := ParsePortRange(value);
      if r.Err? then Err(r.error)
      else Ok(v.(srcPortRanges := Some(RangesOf(v.srcPortRanges) + [r.value])))
    else if fieldName == "dstPort" then
      var r := ParsePortRange(value);
      if r.Err? then Err(r.error)
      else Ok(v.(dstPortRanges := Some(RangesOf(v.dstPortRanges) + [r.value])))
    else SetAddressField(v, fieldName, value)
  }

  /** setRuleField as the rule's own class defines it. */
  function SetField(v: RuleView, fieldName: string, value: string): Result<RuleView, Failure> {
    match v.tier
    case Base => SetBaseField(v, fieldName, value)
    case IP => SetAddressField(v, fieldName, value)
    case TCP => SetPortField(v, fieldName, value)
    case UDP => SetPortField(v, fieldName, value)
  }

  /** The list constructors' loop: the pairs in order, stopping at the first failure. */
  function ApplyAll(v: RuleView, parameters: seq<Pair>): Result<RuleView, Failure>
    decreases |parameters|
  {
    if parameters == [] then Ok(v)
    else
      var w := SetField(v, parameters[0].0, parameters[0].1);
      if w.Err? then Err(w.error) else ApplyAll(w.value, parameters[1..])
  }

  // ---------------------------------------------------------------- matching

  /** Some range of the list holds the port, bounds included. */
  predicate InAnyRange(ranges: seq<PortRange>, port: int) {
    exists i :: 0 <= i < |ranges| && ranges[i].low <= port <= ranges[i].high
  }

  /** An address criterion: unset passes; set passes when in range and its flag is off. */
  predicate AddressPasses(subnet: Option<Subnet>, flag: bool, a: Address) {
    subnet.None? || (InRange(subnet.value, a) && !flag)
  }

  /** A port criterion: unset passes; set passes when some range holds the port and its flag is off. */
  predicate PortsPass(ranges: Option<seq<PortRange>>, flag: bool, port: Port) {
    ranges.None? || (InAnyRange(ranges.value, port) && !flag)
  }

  /** IPRule.matchesRule: an IPv4 packet whose addresses pass both criteria. */
  predicate MatchesIP(v: RuleView, p: Packet) {
    && p.hasIPv4
    && AddressPasses(v.srcAddressMatch, v.srcAddressMatchFlag, p.srcAddr)
    && AddressPasses(v.dstAddressMatch, v.dstAddressMatchFlag, p.dstAddr)
  }

  /** The port checks of UDPRule.matchesRule (and of TCPRule's, with its defect corrected). */
  predicate PortsMatch(v: RuleView, p: Packet) {
    && PortsPass(v.srcPortRanges, v.srcPortRangeMatchFlag, p.srcPort)
    && PortsPass(v.dstPortRanges, v.dstPortRangeMatchFlag, p.dstPort)
  }

  /**
   * matchesRule of the rule's own class. For TCP the destination port is
   * compared with the destination ranges, as UDPRule does: TCPRule as written
   * compares it with the source ranges (see TcpMatchesAsWritten).
   */
  predicate Matches(v: RuleView, p: Packet) {
    match v.tier
    case Base => true
    case IP => MatchesIP(v, p)
    case TCP => p.hasTCP && PortsMatch(v, p) && MatchesIP(v, p)
    case UDP => p.hasUDP && PortsMatch(v, p) && MatchesIP(v, p)
  }

  /**
   * TCPRule.matchesRule exactly as written: the destination-port loop walks
   * the source ranges, so it throws NullPointerException when only
   * destination ports were configured.
   */
  function TcpMatchesAsWritten(v: RuleView, p: Packet): (r: Result<bool, Failure>)
    ensures r.Err? <==> p.hasTCP && PortsPass(v.srcPortRanges, v.srcPortRangeMatchFlag, p.srcPort)
                        && v.dstPortRanges.Some? && v.srcPortRanges.None?
    ensures r.Err? ==> r.error == NullPointer
    ensures r == Ok(true) ==> p.hasTCP && MatchesIP(v, p)
    ensures r == Ok(true) && v.dstPortRanges.Some? ==> InAnyRange(RangesOf(v.srcPortRanges), p.dstPort)
  {
    if !p.hasTCP then Ok(false)
    else if !PortsPass(v.srcPortRanges, v.srcPortRangeMatchFlag, p.srcPort) then Ok(false)
    else if v.dstPortRanges.Some? && v.srcPortRanges.None? then Err(NullPointer)
    else if v.dstPortRanges.Some?
      && !(InAnyRange(v.srcPortRanges.value, p.dstPort) && !v.dstPortRangeMatchFlag) then Ok(false)
    else Ok(MatchesIP(v, p))
  }

  // ---------------------------------------------------------------- text

  /** "%s" of a string that may be null. */
  function FormatString(s: Option<string>): string {
    if s.None? then "null" else s.value
  }

  /** Rule.toString: the switch on a null action throws NullPointerException. */
  function BaseText(v: RuleView): Result<string, Failure> {
    if v.ruleAction.None? then Err(NullPointer)
    else Ok(FormatString(v.metadata) + " action " + ActionWord(v.ruleAction.value))
  }

  /** "a" for a single port, "a-b" otherwise. */
  function RangeText(r: PortRange): string {
    if r.low == r.high then IntText(r.low) else IntText(r.low) + "-" + IntText(r.high)
  }

  /** " name X" */
  function Clause(name: string, r: PortRange): string {
    " " + name + " " + RangeText(r)
  }

  /** One clause for each range, in order. */
  function PortClauses(name: string, ranges: seq<PortRange>): string
    decreases |ranges|
  {
    if ranges == [] then ""
    else PortClauses(name, ranges[..|ranges| - 1]) + Clause(name, ranges[|ranges| - 1])
  }

  /** toString of the rule's own class: UDPRule renders its port ranges; the others inherit Rule's. */
  function RuleText(v: RuleView): Result<string, Failure> {
    if v.tier != UDP then BaseText(v)
    else
      var base := BaseText(v);
      if base.Err? then Err(base.error)
      else
        Ok("udp" + PortClauses("srcPort", RangesOf(v.srcPortRanges))
           + PortClauses("dstPort", RangesOf(v.dstPortRanges)) + " " + base.value)
  }
}
