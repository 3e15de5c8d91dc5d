/**
 * What the rule operations promise: how setting fields and applying pair
 * lists change a rule, when a packet matches, and how TCPRule's matcher as
 * written departs from the corrected one.
 */
module RuleFacts {
  import opened Common
  import opened Text
  import opened Packets
  import opened RuleSpec

  // ---------------------------------------------------------------- actions

  /** The action parser accepts exactly the three lower-case literals and is the inverse of ActionWord. */
  lemma ActionLiterals(s: string)
    ensures ActionToRuleAction(s).Ok? <==> s == "accept" || s == "deny" || s == "reject"
    ensures ActionToRuleAction(s).Ok? ==> ActionWord(ActionToRuleAction(s).value) == s
    ensures ActionToRuleAction(s).Err? ==> ActionToRuleAction(s).error == UnhandledFieldName(s)
  {
  }

  lemma ActionWordParses(a: RuleAction)
    ensures ActionToRuleAction(ActionWord(a)) == Ok(a)
  {
  }

  // ---------------------------------------------------------------- fields

  /** The field names a tier's setRuleField knows, its own and its superclasses'. */
  function FieldNames(t: Tier): set<string> {
    {"action"}
    + (if HasAddresses(t) then {"srcAddress", "dstAddress"} else {})
    + (if HasPorts(t) then {"srcPort", "dstPort"} else {})
  }

  /** A name the rule's class chain does not know is UnhandledFieldName, whatever the value. */
  lemma UnknownFieldRejected(v: RuleView, fieldName: string, value: string)
    requires fieldName !in FieldNames(v.tier)
    ensures SetField(v, fieldName, value) == Err(UnhandledFieldName(fieldName))
  {
  }

  /**
   * Exactly what one successful setRuleField changes: the action, one
   * subnet (replaced) or one port list (one range appended), according to
   * the name; nothing else.
   */
  lemma SetFieldEffect(v: RuleView, fieldName: string, value: string)
    requires SetField(v, fieldName, value).Ok?
    ensures var w := SetField(v, fieldName, value).value;
      && fieldName in FieldNames(v.tier)
      && w.tier == v.tier && w.metadata == v.metadata
      && w.srcAddressMatchFlag == v.srcAddressMatchFlag && w.dstAddressMatchFlag == v.dstAddressMatchFlag
      && w.srcPortRangeMatchFlag == v.srcPortRangeMatchFlag && w.dstPortRangeMatchFlag == v.dstPortRangeMatchFlag
      && (fieldName == "action" ==>
            ActionToRuleAction(value).Ok? && w.ruleAction == Some(ActionToRuleAction(value).value))
      && (fieldName != "action" ==> w.ruleAction == v.ruleAction)
      && (fieldName == "srcAddress" ==>
            ParseCidr(value).Some? && w.srcAddressMatch == Some(ParseCidr(value).value))
      && (fieldName != "srcAddress" ==> w.srcAddressMatch == v.srcAddressMatch)
      && (fieldName == "dstAddress" ==>
            ParseCidr(value).Some? && w.dstAddressMatch == Some(ParseCidr(value).value))
      && (fieldName != "dstAddress" ==> w.dstAddressMatch == v.dstAddressMatch)
      && (fieldName == "srcPort" ==>
            ParsePortRange(value).Ok?
            && w.srcPortRanges == Some(RangesOf(v.srcPortRanges) + [ParsePortRange(value).value]))
      && (fieldName != "srcPort" ==> w.srcPortRanges == v.srcPortRanges)
      && (fieldName == "dstPort" ==>
            ParsePortRange(value).Ok?
            && w.dstPortRanges == Some(RangesOf(v.dstPortRanges) + [ParsePortRange(value).value]))
      && (fieldName != "dstPort" ==> w.dstPortRanges == v.dstPortRanges)
  {
    if fieldName == "srcPort" || fieldName == "dstPort" {
      assert HasPorts(v.tier);
    } else if fieldName == "srcAddress" || fieldName == "dstAddress" {
      assert HasAddresses(v.tier);
    } else {
      assert fieldName == "action";
    }
  }

  /** Which exception a failing setRuleField raises. */
  lemma SetFieldErrors(v: RuleView, fieldName: string, value: string)
    requires fieldName in FieldNames(v.tier)
    requires SetField(v, fieldName, value).Err?
    ensures fieldName == "action" ==> SetField(v, fieldName, value).error == UnhandledFieldName(value)
    ensures fieldName == "srcAddress" || fieldName == "dstAddress" ==>
      SetField(v, fieldName, value).error == IllegalArgument(value)
    ensures fieldName == "srcPort" || fieldName == "dstPort" ==>
      SetField(v, fieldName, value).error == InvalidFieldValue(value)
  {
  }

  lemma SetFieldWellFormed(v: RuleView, fieldName: string, value: string)
    requires WellFormed(v) && SetField(v, fieldName, value).Ok?
    ensures WellFormed(SetField(v, fieldName, value).value)
  {
    SetFieldEffect(v, fieldName, value);
  }

  // ---------------------------------------------------------------- port values

  /** Reading back the text of a range whose bounds are non-negative ints gives the range. */
  lemma ParsePortRangeText(r: PortRange)
    requires 0 <= r.low <= MaxInt && 0 <= r.high <= MaxInt
    ensures ParsePortRange(RangeText(r)) == Ok(r)
  {
    var lo := NatText(r.low);
    DigitsHaveNo(lo, '-');
    ParseIntNatText(r.low);
    if r.low != r.high {
      var hi := NatText(r.high);
      DigitsHaveNo(hi, '-');
      ParseIntNatText(r.high);
      var text := lo + "-" + hi;
      assert text[|lo|] == '-';
      SplitOnJoin(lo, hi, '-');
      SplitOnAbsent(hi, '-');
      assert SplitOn(text, '-') == [lo, hi];
    }
  }

  /** A value without '-' is a single port. */
  lemma SinglePortValue(value: string)
    requires '-' !in value && ParsePortRange(value).Ok?
    ensures ParsePortRange(value).value.low == ParsePortRange(value).value.high
    ensures ParseInt(value) == Some(ParsePortRange(value).value.low)
  {
  }

  /** "5-6-": String.split drops the trailing empty piece, so this is the range 5-6. */
  lemma TrailingDashAccepted()
    ensures ParsePortRange("5-6-") == Ok(PortRange(5, 6))
  {
    assert "5-6-" == "5" + ['-'] + ("6" + ['-'] + "");
    SplitOnJoin("5", "6" + ['-'] + "", '-');
    SplitOnJoin("6", "", '-');
    assert SplitOn("5-6-", '-') == ["5", "6", ""];
    assert DropTrailingEmpty(["5", "6", ""]) == ["5", "6"];
  }

  /** "5-": one piece after the split, so not a range. */
  lemma MissingEndRejected()
    ensures ParsePortRange("5-") == Err(InvalidFieldValue("5-"))
  {
    assert "5-" == "5" + ['-'] + "";
    SplitOnJoin("5", "", '-');
    assert DropTrailingEmpty(["5", ""]) == ["5"];
  }

  // ---------------------------------------------------------------- pair lists

  /** The values of the pairs named `name`, in order. */
  function Values(ps: seq<Pair>, name: string): seq<string>
    decreases |ps|
  {
    if ps == [] then [] else (if ps[0].0 == name then [ps[0].1] else []) + Values(ps[1..], name)
  }

  predicate AllPortValues(vals: seq<string>) {
    forall k :: 0 <= k < |vals| ==> ParsePortRange(vals[k]).Ok?
  }

  /** The ranges that a list of port values denotes. */
  function ParsedRanges(vals: seq<string>): seq<PortRange>
    requires AllPortValues(vals)
    decreases |vals|
  {
    if vals == [] then [] else [ParsePortRange(vals[0]).value] + ParsedRanges(vals[1..])
  }

  /** A port list after appending ranges one at a time: untouched when there are none. */
  function Appended(o: Option<seq<PortRange>>, rs: seq<PortRange>): Option<seq<PortRange>> {
    if rs == [] then o else Some(RangesOf(o) + rs)
  }

  /** Applying a concatenation is applying each part in turn; a failure in the first part ends it. */
  lemma {:induction false} ApplyAllAppend(v: RuleView, ps: seq<Pair>, qs: seq<Pair>)
    ensures ApplyAll(v, ps + qs) ==
      (if ApplyAll(v, ps).Err? then ApplyAll(v, ps) else ApplyAll(ApplyAll(v, ps).value, qs))
    decreases |ps|
  {
    if ps == [] {
      assert ps + qs == qs;
    } else {
      assert (ps + qs)[0] == ps[0];
      assert (ps + qs)[1..] == ps[1..] + qs;
      var w := SetField(v, ps[0].0, ps[0].1);
      if w.Ok? {
        ApplyAllAppend(w.value, ps[1..], qs);
      }
    }
  }

  /**
   * A failing list fails with the error of its first failing pair: every
   * pair before it applied, and none after it.
   */
  lemma {:induction false} ApplyAllFirstError(v: RuleView, ps: seq<Pair>)
    requires ApplyAll(v, ps).Err?
    ensures exists k :: (0 <= k < |ps| && ApplyAll(v, ps[..k]).Ok?
      && SetField(ApplyAll(v, ps[..k]).value, ps[k].0, ps[k].1) == ApplyAll(v, ps))
    decreases |ps|
  {
    var n := |ps| - 1;
    var front := ps[..n];
    assert ps == front + [ps[n]];
    ApplyAllAppend(v, front, [ps[n]]);
    if ApplyAll(v, front).Err? {
      ApplyAllFirstError(v, front);
      var k :| 0 <= k < |front| && ApplyAll(v, front[..k]).Ok?
        && SetField(ApplyAll(v, front[..k]).value, front[k].0, front[k].1) == ApplyAll(v, front);
      assert front[..k] == ps[..k];
    } else {
      ApplyAllSingle(ApplyAll(v, front).value, ps[n]);
    }
  }

  /** A single pair applies as one setRuleField. */
  lemma ApplyAllSingle(u: RuleView, p: Pair)
    ensures ApplyAll(u, [p]) == SetField(u, p.0, p.1)
  {
    assert [p][1..] == [];
  }

  /** Every pair of a list that applies names a field of the tier; the tier, metadata and flags stay. */
  lemma {:induction false} ApplyAllKeeps(v: RuleView, ps: seq<Pair>)
    requires ApplyAll(v, ps).Ok?
    ensures forall k :: 0 <= k < |ps| ==> ps[k].0 in FieldNames(v.tier)
    ensures var w := ApplyAll(v, ps).value;
      && w.tier == v.tier && w.metadata == v.metadata
      && w.srcAddressMatchFlag == v.srcAddressMatchFlag && w.dstAddressMatchFlag == v.dstAddressMatchFlag
      && w.srcPortRangeMatchFlag == v.srcPortRangeMatchFlag && w.dstPortRangeMatchFlag == v.dstPortRangeMatchFlag
    ensures WellFormed(v) ==> WellFormed(ApplyAll(v, ps).value)
    decreases |ps|
  {
    if ps != [] {
      SetFieldEffect(v, ps[0].0, ps[0].1);
      var w := SetField(v, ps[0].0, ps[0].1).value;
      if WellFormed(v) {
        SetFieldWellFormed(v, ps[0].0, ps[0].1);
      }
      ApplyAllKeeps(w, ps[1..]);
      forall k | 0 <= k < |ps|
        ensures ps[k].0 in FieldNames(v.tier)
      {
        if k > 0 {
          assert ps[k] == ps[1..][k - 1];
        }
      }
    }
  }

  /** The last action pair decides the action; every action value is a valid literal. */
  lemma {:induction false} ApplyAllAction(v: RuleView, ps: seq<Pair>)
    requires ApplyAll(v, ps).Ok?
    ensures var vals := Values(ps, "action");
      && (forall k :: 0 <= k < |vals| ==> ActionToRuleAction(vals[k]).Ok?)
      && ApplyAll(v, ps).value.ruleAction ==
         (if vals == [] then v.ruleAction else Some(ActionToRuleAction(vals[|vals| - 1]).value))
    decreases |ps|
  {
    if ps != [] {
      SetFieldEffect(v, ps[0].0, ps[0].1);
      var w := SetField(v, ps[0].0, ps[0].1).value;
      ApplyAllAction(w, ps[1..]);
      assert Values(ps, "action") == (if ps[0].0 == "action" then [ps[0].1] else []) + Values(ps[1..], "action");
    }
  }

  /** The last srcAddress pair and the last dstAddress pair decide the subnets. */
  lemma {:induction false} ApplyAllAddresses(v: RuleView, ps: seq<Pair>)
    requires ApplyAll(v, ps).Ok?
    ensures var vals := Values(ps, "srcAddress");
      && (forall k :: 0 <= k < |vals| ==> ParseCidr(vals[k]).Some?)
      && ApplyAll(v, ps).value.srcAddressMatch ==
         (if vals == [] then v.srcAddressMatch else Some(ParseCidr(vals[|vals| - 1]).value))
    ensures var vals := Values(ps, "dstAddress");
      && (forall k :: 0 <= k < |vals| ==> ParseCidr(vals[k]).Some?)
      && ApplyAll(v, ps).value.dstAddressMatch ==
         (if vals == [] then v.dstAddressMatch else Some(ParseCidr(vals[|vals| - 1]).value))
    decreases |ps|
  {
    if ps != [] {
      SetFieldEffect(v, ps[0].0, ps[0].1);
      var w := SetField(v, ps[0].0, ps[0].1).value;
      ApplyAllAddresses(w, ps[1..]);
      assert Values(ps, "srcAddress") ==
        (if ps[0].0 == "srcAddress" then [ps[0].1] else []) + Values(ps[1..], "srcAddress");
      assert Values(ps, "dstAddress") ==
        (if ps[0].0 == "dstAddress" then [ps[0].1] else []) + Values(ps[1..], "dstAddress");
    }
  }

  lemma AppendedStep(o: Option<seq<PortRange>>, r: PortRange, rs: seq<PortRange>)
    ensures Appended(Some(RangesOf(o) + [r]), rs) == Appended(o, [r] + rs)
  {
    var front := RangesOf(o) + [r];
    if rs == [] {
      assert [r] + rs == [r];
    } else {
      assert Appended(Some(front), rs) == Some(front + rs);
      assert front + rs == RangesOf(o) + ([r] + rs);
    }
  }

  /** Every srcPort (dstPort) pair appends its range to the source (destination) list, in order. */
  lemma {:induction false} ApplyAllPorts(v: RuleView, ps: seq<Pair>)
    requires ApplyAll(v, ps).Ok?
    ensures AllPortValues(Values(ps, "srcPort")) && AllPortValues(Values(ps, "dstPort"))
    ensures ApplyAll(v, ps).value.srcPortRanges ==
      Appended(v.srcPortRanges, ParsedRanges(Values(ps, "srcPort")))
    ensures ApplyAll(v, ps).value.dstPortRanges ==
      Appended(v.dstPortRanges, ParsedRanges(Values(ps, "dstPort")))
    decreases |ps|
  {
    if ps != [] {
      SetFieldEffect(v, ps[0].0, ps[0].1);
      var w := SetField(v, ps[0].0, ps[0].1).value;
      ApplyAllPorts(w, ps[1..]);
      var name, value := ps[0].0, ps[0].1;
      var srcRest, dstRest := Values(ps[1..], "srcPort"), Values(ps[1..], "dstPort");
      if name == "srcPort" {
        assert Values(ps, "srcPort") == [value] + srcRest;
        assert ([value] + srcRest)[1..] == srcRest;
        assert Values(ps, "dstPort") == dstRest;
        AppendedStep(v.srcPortRanges, ParsePortRange(value).value, ParsedRanges(srcRest));
      } else if name == "dstPort" {
        assert Values(ps, "dstPort") == [value] + dstRest;
        assert ([value] + dstRest)[1..] == dstRest;
        assert Values(ps, "srcPort") == srcRest;
        AppendedStep(v.dstPortRanges, ParsePortRange(value).value, ParsedRanges(dstRest));
      } else {
        assert Values(ps, "srcPort") == srcRest;
        assert Values(ps, "dstPort") == dstRest;
      }
    }
  }

  /** A rule built from pairs is well formed: in particular its match flags are all off. */
  lemma BuiltRuleWellFormed(t: Tier, ps: seq<Pair>)
    requires ApplyAll(Initial(t), ps).Ok?
    ensures WellFormed(ApplyAll(Initial(t), ps).value)
  {
    ApplyAllKeeps(Initial(t), ps);
  }

  // ---------------------------------------------------------------- matching

  /** The header a tier demands before looking at any criterion. */
  predicate Gate(t: Tier, p: Packet) {
    match t
    case Base => true
    case IP => p.hasIPv4
    case TCP => p.hasTCP && p.hasIPv4
    case UDP => p.hasUDP && p.hasIPv4
  }

  /** A packet without the tier's headers never matches; a base rule matches every packet. */
  lemma GateRequired(v: RuleView, p: Packet)
    ensures Matches(v, p) ==> Gate(v.tier, p)
    ensures v.tier == Base ==> Matches(v, p)
  {
  }

  /** With no criteria set, exactly the packets that pass the gate match. */
  lemma NoCriteriaMatchesGate(v: RuleView, p: Packet)
    requires v.srcAddressMatch.None? && v.dstAddressMatch.None?
    requires v.srcPortRanges.None? && v.dstPortRanges.None?
    ensures Matches(v, p) <==> Gate(v.tier, p)
  {
  }

  /**
   * A set subnet criterion (flag off) filters: the rule matches exactly the
   * packets that the rule without it matches and whose address is in range.
   */
  lemma AddressCriteriaFilter(v: RuleView, p: Packet)
    requires HasAddresses(v.tier) && !v.srcAddressMatchFlag && !v.dstAddressMatchFlag
    ensures v.srcAddressMatch.Some? ==>
      (Matches(v, p) <==> Matches(v.(srcAddressMatch := None), p) && InRange(v.srcAddressMatch.value, p.srcAddr))
    ensures v.dstAddressMatch.Some? ==>
      (Matches(v, p) <==> Matches(v.(dstAddressMatch := None), p) && InRange(v.dstAddressMatch.value, p.dstAddr))
  {
  }

  /**
   * A set port-range list (flag off) filters: the rule matches exactly the
   * packets that the rule without it matches and whose port lies in some
   * range of the list.
   */
  lemma PortCriteriaFilter(v: RuleView, p: Packet)
    requires HasPorts(v.tier) && !v.srcPortRangeMatchFlag && !v.dstPortRangeMatchFlag
    ensures v.srcPortRanges.Some? ==>
      (Matches(v, p) <==>
        Matches(v.(srcPortRanges := None), p)
        && exists r :: r in v.srcPortRanges.value && r.low <= p.srcPort <= r.high)
    ensures v.dstPortRanges.Some? ==>
      (Matches(v, p) <==>
        Matches(v.(dstPortRanges := None), p)
        && exists r :: r in v.dstPortRanges.value && r.low <= p.dstPort <= r.high)
  {
    if v.srcPortRanges.Some? {
      var rs := v.srcPortRanges.value;
      if InAnyRange(rs, p.srcPort) {
        var i :| 0 <= i < |rs| && rs[i].low <= p.srcPort <= rs[i].high;
        assert rs[i] in rs;
      }
    }
    if v.dstPortRanges.Some? {
      var rs := v.dstPortRanges.value;
      if InAnyRange(rs, p.dstPort) {
        var i :| 0 <= i < |rs| && rs[i].low <= p.dstPort <= rs[i].high;
        assert rs[i] in rs;
      }
    }
  }

  /** A set criterion whose flag is on never passes, so the rule matches nothing. */
  lemma FlagBlocksMatch(v: RuleView, p: Packet)
    requires
      || (HasAddresses(v.tier) && v.srcAddressMatch.Some? && v.srcAddressMatchFlag)
      || (HasAddresses(v.tier) && v.dstAddressMatch.Some? && v.dstAddressMatchFlag)
      || (HasPorts(v.tier) && v.srcPortRanges.Some? && v.srcPortRangeMatchFlag)
      || (HasPorts(v.tier) && v.dstPortRanges.Some? && v.dstPortRangeMatchFlag)
    ensures !Matches(v, p)
  {
  }

  /** Appending a range widens the list by exactly that range. */
  lemma AppendRangeWidens(rs: seq<PortRange>, r: PortRange, port: int)
    ensures InAnyRange(rs + [r], port) <==> InAnyRange(rs, port) || r.low <= port <= r.high
  {
    if InAnyRange(rs, port) {
      var i :| 0 <= i < |rs| && rs[i].low <= port <= rs[i].high;
      assert (rs + [r])[i] == rs[i];
    }
    if r.low <= port <= r.high {
      assert (rs + [r])[|rs|] == r;
    }
    if InAnyRange(rs + [r], port) {
      var i :| 0 <= i < |rs + [r]| && (rs + [r])[i].low <= port <= (rs + [r])[i].high;
      if i < |rs| {
        assert (rs + [r])[i] == rs[i];
      }
    }
  }

  /** A reversed range (low above high) holds no port, so appending one changes nothing. */
  lemma ReversedRangeAddsNothing(rs: seq<PortRange>, r: PortRange, port: int)
    requires r.low > r.high
    ensures InAnyRange(rs + [r], port) == InAnyRange(rs, port)
  {
    AppendRangeWidens(rs, r, port);
  }

  // ---------------------------------------------------------------- the TCP destination-port defect

  /** Only destination ports configured: TCPRule as written dereferences the null source list. */
  lemma TcpAsWrittenNullPointer(v: RuleView, p: Packet)
    requires v.tier == TCP && p.hasTCP
    requires v.srcPortRanges.None? && v.dstPortRanges.Some?
    ensures TcpMatchesAsWritten(v, p) == Err(NullPointer)
  {
  }

  /** With no destination ports the code as written agrees with the corrected matcher. */
  lemma TcpAsWrittenWithoutDstPorts(v: RuleView, p: Packet)
    requires v.tier == TCP && v.dstPortRanges.None?
    ensures TcpMatchesAsWritten(v, p) == Ok(Matches(v, p))
  {
  }

  /**
   * With both lists configured the code as written behaves like the
   * corrected matcher on a rule whose destination ranges are its source ranges.
   */
  lemma TcpAsWrittenUsesSourceRanges(v: RuleView, p: Packet)
    requires v.tier == TCP && v.srcPortRanges.Some? && v.dstPortRanges.Some?
    ensures TcpMatchesAsWritten(v, p) == Ok(Matches(v.(dstPortRanges := v.srcPortRanges), p))
  {
  }

  // ---------------------------------------------------------------- text

  /** toString needs an action: without one the switch throws. */
  lemma TextNeedsAction(v: RuleView)
    ensures RuleText(v).Err? <==> v.ruleAction.None?
    ensures RuleText(v).Err? ==> RuleText(v).error == NullPointer
  {
  }

  /** Subnets are never rendered, and a TCP or IP rule renders no ports either. */
  lemma TextOmitsCriteria(v: RuleView, s: Option<Subnet>, d: Option<Subnet>)
    ensures RuleText(v.(srcAddressMatch := s, dstAddressMatch := d)) == RuleText(v)
    ensures v.tier != UDP ==> RuleText(v.(srcPortRanges := None, dstPortRanges := None)) == RuleText(v)
  {
  }
}
