/**
 * The rule objects: Rule, IPRule, TCPRule and UDPRule as one class whose
 * `tier` says which of them an object is. Every method is proved against the
 * functions of RuleSpec applied to the object's fields (View()).
 */
module Rules {
  import opened Common
  import opened Text
  import opened Packets
  import opened RuleSpec
  import opened RuleFacts

  /**
   * The effect of a setter that may throw: on success the new state is the
   * computed one and nothing is raised; on failure the exception is raised
   * and the state is untouched (every setter parses before it assigns).
   */
  predicate Outcome(before: RuleView, result: Result<RuleView, Failure>, after: RuleView, err: Option<Failure>) {
    match result
    case Ok(w) => err.None? && after == w
    case Err(e) => err == Some(e) && after == before
  }

  /** The flag-and-break search loop of the port checks in matchesRule. */
  method RangesContain(ranges: seq<PortRange>, port: int) returns (matched: bool)
    ensures matched <==> InAnyRange(ranges, port)
  {
    matched := false;
    var i := 0;
    while i < |ranges|
      invariant 0 <= i <= |ranges|
      invariant forall j :: 0 <= j < i ==> !(ranges[j].low <= port <= ranges[j].high)
    {
      if port >= ranges[i].low && port <= ranges[i].high {
        matched := true;
        break;
      }
      i := i + 1;
    }
  }

  lemma ClausesSnoc(name: string, ranges: seq<PortRange>, i: nat)
    requires i < |ranges|
    ensures PortClauses(name, ranges[..i + 1]) == PortClauses(name, ranges[..i]) + Clause(name, ranges[i])
  {
    assert ranges[..i + 1][..i] == ranges[..i];
  }

  /** One turn of the rendering loop appends the next clause. */
  lemma ClausesStep(s: string, t: string, name: string, ranges: seq<PortRange>, i: nat)
    requires i < |ranges|
    requires t == s + PortClauses(name, ranges[..i])
    ensures t + Clause(name, ranges[i]) == s + PortClauses(name, ranges[..i + 1])
  {
    ClausesSnoc(name, ranges, i);
    ConcatAssoc(s, PortClauses(name, ranges[..i]), Clause(name, ranges[i]));
  }

  /** The StringBuilder loop of UDPRule.toString: one " name X" clause per range. */
  method AppendClauses(s: string, name: string, ranges: seq<PortRange>) returns (t: string)
    ensures t == s + PortClauses(name, ranges)
  {
    t := s;
    for i := 0 to |ranges|
      invariant t == s + PortClauses(name, ranges[..i])
    {
      ClausesStep(s, t, name, ranges, i);
      var r := ranges[i];
      var text := if r.low == r.high then IntText(r.low) else IntText(r.low) + "-" + IntText(r.high);
      t := t + (" " + name + " " + text);
    }
    assert ranges[..|ranges|] == ranges;
  }

  class Rule {
    /** Which class of the chain this object is. */
    const tier: Tier
    // Rule
    var ruleAction: Option<RuleAction>
    var metadata: Option<string>
    // IPRule
    var srcAddressMatch: Option<Subnet>
    var srcAddressMatchFlag: bool
    var dstAddressMatch: Option<Subnet>
    var dstAddressMatchFlag: bool
    // TCPRule and UDPRule
    var srcPortRanges: Option<seq<PortRange>>
    var srcPortRangeMatchFlag: bool
    var dstPortRanges: Option<seq<PortRange>>
    var dstPortRangeMatchFlag: bool

    /** The object's fields as a value. */
    function View(): RuleView
      reads this
    {
      RuleView(tier, ruleAction, metadata,
               srcAddressMatch, srcAddressMatchFlag, dstAddressMatch, dstAddressMatchFlag,
               srcPortRanges, srcPortRangeMatchFlag, dstPortRanges, dstPortRangeMatchFlag)
    }

    /** The no-argument constructors: no action, empty metadata, no criteria. */
    constructor (tier: Tier)
      ensures View() == Fresh(tier) && WellFormed(View())
    {
      this.tier := tier;
      ruleAction := None;
      metadata := Some("");
      srcAddressMatch, srcAddressMatchFlag := None, false;
      dstAddressMatch, dstAddressMatchFlag := None, false;
      srcPortRanges, srcPortRangeMatchFlag := None, false;
      dstPortRanges, dstPortRangeMatchFlag := None, false;
    }

    /** The state the list constructors start from (the base one leaves metadata null). */
    constructor ForParameters(tier: Tier)
      ensures View() == Initial(tier) && WellFormed(View())
    {
      this.tier := tier;
      ruleAction := None;
      metadata := if tier == Base then None else Some("");
      srcAddressMatch, srcAddressMatchFlag := None, false;
      dstAddressMatch, dstAddressMatchFlag := None, false;
      srcPortRanges, srcPortRangeMatchFlag := None, false;
      dstPortRanges, dstPortRangeMatchFlag := None, false;
    }

    /**
     * The list constructors Rule(List), IPRule(List), TCPRule(List) and
     * UDPRule(List): setRuleField for each pair in order; the first failure
     * escapes and no rule is built.
     */
    static method FromParameters(tier: Tier, parameters: seq<Pair>) returns (r: Result<Rule, Failure>)
      ensures ApplyAll(Initial(tier), parameters).Ok? ==>
        r.Ok? && fresh(r.value) && r.value.tier == tier
        && r.value.View() == ApplyAll(Initial(tier), parameters).value
      ensures ApplyAll(Initial(tier), parameters).Err? ==>
        r == Err(ApplyAll(Initial(tier), parameters).error)
    {
      var rule := new Rule.ForParameters(tier);
      var i := 0;
      while i < |parameters|
        invariant 0 <= i <= |parameters|
        invariant fresh(rule) && rule.tier == tier
        invariant ApplyAll(Initial(tier), parameters[..i]) == Ok(rule.View())
      {
        ApplyAllAppend(Initial(tier), parameters[..i], [parameters[i]]);
        assert parameters[..i + 1] == parameters[..i] + [parameters[i]];
        var err := rule.SetRuleField(parameters[i].0, parameters[i].1);
        if err.Some? {
          ApplyAllAppend(Initial(tier), parameters[..i + 1], parameters[i + 1..]);
          assert parameters[..i + 1] + parameters[i + 1..] == parameters;
          return Err(err.value);
        }
        i := i + 1;
      }
      assert parameters[..i] == parameters;
      r := Ok(rule);
    }

    /** getAction: the stored action, whatever the packet. */
    function GetAction(packet: Packet): (r: Option<RuleAction>)
      reads this
      ensures r == View().ruleAction
    {
      ruleAction
    }

    /** getRuleMetadata */
    function GetRuleMetadata(): (r: Option<string>)
      reads this
      ensures r == View().metadata
    {
      metadata
    }

    /** setRuleMetadata: replaces the metadata (null included) and nothing else. */
    method SetRuleMetadata(info: Option<string>)
      modifies this
      ensures View() == old(View()).(metadata := info)
      ensures GetRuleMetadata() == info
    {
      metadata := info;
    }

    /** setRuleField, dispatched to the rule's own class. */
    method SetRuleField(fieldName: string, value: string) returns (err: Option<Failure>)
      modifies this
      ensures Outcome(old(View()), SetField(old(View()), fieldName, value), View(), err)
    {
      match tier
      case Base => err := SetBaseRuleField(fieldName, value);
      case IP => err := SetIPRuleField(fieldName, value);
      case TCP => err := SetTransportRuleField(fieldName, value);
      case UDP => err := SetTransportRuleField(fieldName, value);
    }

    /** Rule.setRuleField */
    method SetBaseRuleField(fieldName: string, value: string) returns (err: Option<Failure>)
      modifies this
      ensures Outcome(old(View()), SetBaseField(old(View()), fieldName, value), View(), err)
    {
      if fieldName == "action" {
        var a := ActionToRuleAction(value);
        if a.Err? {
          return Some(a.error);
        }
        ruleAction := Some(a.value);
        err := None;
      } else {
        err := Some(UnhandledFieldName(fieldName));
      }
    }

    /** IPRule.setRuleField */
    method SetIPRuleField(fieldName: string, value: string) returns (err: Option<Failure>)
      modifies this
      ensures Outcome(old(View()), SetAddressField(old(View()), fieldName, value), View(), err)
    {
      if fieldName == "srcAddress" {
        var s := ParseCidr(value);
        if s.None? {
          return Some(IllegalArgument(value));
        }
        srcAddressMatch := s;
        err := None;
      } else if fieldName == "dstAddress" {
        var s := ParseCidr(value);
        if s.None? {
          return Some(IllegalArgument(value));
        }
        dstAddressMatch := s;
        err := None;
      } else {
        err := SetBaseRuleField(fieldName, value);
      }
    }

    /** TCPRule.setRuleField and UDPRule.setRuleField: the list is created on first use, then appended to. */
    method SetTransportRuleField(fieldName: string, value: string) returns (err: Option<Failure>)
      modifies this
      ensures Outcome(old(View()), SetPortField(old(View()), fieldName, value), View(), err)
    {
      if fieldName == "srcPort" {
        var r := ParsePortRange(value);
        if r.Err? {
          return Some(r.error);
        }
        if srcPortRanges.None? {
          srcPortRanges := Some([]);
        }
        srcPortRanges := Some(srcPortRanges.value + [r.value]);
        err := None;
      } else if fieldName == "dstPort" {
        var r := ParsePortRange(value);
        if r.Err? {
          return Some(r.error);
        }
        if dstPortRanges.None? {
          dstPortRanges := Some([]);
        }
        dstPortRanges := Some(dstPortRanges.value + [r.value]);
        err := None;
      } else {
        err := SetIPRuleField(fieldName, value);
      }
    }

    /**
     * matchesRule of the rule's own class. TCP rules test the destination
     * port against the destination ranges here; TCPRule as written uses the
     * source ranges (RuleSpec.TcpMatchesAsWritten).
     */
    method MatchesRule(packet: Packet) returns (m: bool)
      ensures m == Matches(View(), packet)
    {
      match tier
      case Base =>
        m := true;
      case IP =>
        m := MatchesIP(View(), packet);
      case TCP =>
        m := MatchesTransport(packet, packet.hasTCP);
      case UDP =>
        m := MatchesTransport(packet, packet.hasUDP);
    }

    /** The body shared by TCPRule.matchesRule (corrected) and UDPRule.matchesRule. */
    method MatchesTransport(packet: Packet, hasLayer: bool) returns (m: bool)
      requires HasPorts(tier)
      requires hasLayer == (if tier == TCP then packet.hasTCP else packet.hasUDP)
      ensures m == Matches(View(), packet)
    {
      if !hasLayer {
        return false;
      }
      if srcPortRanges.Some? {
        var matched := RangesContain(srcPortRanges.value, packet.srcPort);
        if !matched {
          return false;
        } else if srcPortRangeMatchFlag {
          return false;
        }
      }
      if dstPortRanges.Some? {
        var matched := RangesContain(dstPortRanges.value, packet.dstPort);
        if !matched {
          return false;
        } else if dstPortRangeMatchFlag {
          return false;
        }
      }
      m := MatchesIP(View(), packet);
    }

    /** toString: UDPRule renders its port ranges before Rule's "<metadata> action <action>". */
    method ToString() returns (r: Result<string, Failure>)
      ensures r == RuleText(View())
    {
      if tier != UDP {
        return BaseText(View());
      }
      var s := "udp";
      if srcPortRanges.Some? {
        s := AppendClauses(s, "srcPort", srcPortRanges.value);
      }
      assert s == "udp" + PortClauses("srcPort", RangesOf(srcPortRanges));
      if dstPortRanges.Some? {
        s := AppendClauses(s, "dstPort", dstPortRanges.value);
      }
      assert s == "udp" + PortClauses("srcPort", RangesOf(srcPortRanges))
        + PortClauses("dstPort", RangesOf(dstPortRanges));
      s := s + " ";
      var base := BaseText(View());
      if base.Err? {
        return Err(base.error);
      }
      r := Ok(s + base.value);
    }
  }
}
