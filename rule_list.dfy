/**
 * RuleList: the rules in the order they were added, and the first-match
 * search that decides which rule applies to a packet.
 */
module RuleLists {
  import opened Common
  import opened Packets
  import opened RuleSpec
  import opened Rules
  import opened Parser

  /** The rules' states, in list order. */
  function ViewsOf(rs: seq<Rule>): (vs: seq<RuleView>)
    reads rs
    ensures |vs| == |rs|
    ensures forall i :: 0 <= i < |rs| ==> vs[i] == rs[i].View()
  {
    seq(|rs|, i reads rs requires 0 <= i < |rs| => rs[i].View())
  }

  /** checkRules as a value: the position of the first rule that matches, if any. */
  function FirstMatch(views: seq<RuleView>, p: Packet): (r: Option<nat>)
    ensures r.Some? ==> r.value < |views| && Matches(views[r.value], p)
    ensures r.Some? ==> forall j :: 0 <= j < r.value ==> !Matches(views[j], p)
    ensures r.None? ==> forall j :: 0 <= j < |views| ==> !Matches(views[j], p)
    decreases |views|
  {
    if views == [] then None
    else if Matches(views[0], p) then Some(0)
    else
      var rest := FirstMatch(views[1..], p);
      if rest.None? then None else Some(rest.value + 1)
  }

  /** A rule that matches with no earlier rule matching is the one checkRules returns. */
  lemma FirstMatchAt(views: seq<RuleView>, p: Packet, i: nat)
    requires i < |views| && Matches(views[i], p)
    requires forall j :: 0 <= j < i ==> !Matches(views[j], p)
    ensures FirstMatch(views, p) == Some(i)
  {
  }

  /** Adding a rule at the end changes the verdict only for packets no earlier rule matched. */
  lemma FirstMatchAppend(views: seq<RuleView>, w: RuleView, p: Packet)
    ensures FirstMatch(views + [w], p) ==
      if FirstMatch(views, p).Some? then FirstMatch(views, p)
      else if Matches(w, p) then Some(|views|)
      else None
  {
    var all := views + [w];
    var r := FirstMatch(views, p);
    if r.Some? {
      assert all[r.value] == views[r.value];
      FirstMatchAt(all, p, r.value);
    } else if Matches(w, p) {
      assert all[|views|] == w;
      FirstMatchAt(all, p, |views|);
    } else {
      assert forall j :: 0 <= j < |views| ==> all[j] == views[j];
      assert all[|views|] == w;
    }
  }

  class RuleList {
    var rules: seq<Rule>

    /** The empty list. */
    constructor ()
      ensures rules == []
    {
      rules := [];
    }

    /**
     * addRule: parses the line and appends the new rule; a line that does
     * not parse raises and leaves the list as it was.
     */
    method AddRule(s: string) returns (r: Result<Rule, Failure>)
      modifies this
      ensures ParseLine(s).Ok? ==>
        r.Ok? && fresh(r.value) && rules == old(rules) + [r.value]
        && ViewsOf(rules) == old(ViewsOf(rules)) + [ParseLine(s).value]
      ensures ParseLine(s).Err? ==> r == Err(ParseLine(s).error) && rules == old(rules)
    {
      r := Parse(s);
      if r.Ok? {
        rules := rules + [r.value];
      }
    }

    /** checkRules: the first rule, in list order, that matches the packet. */
    method CheckRules(packet: Packet) returns (r: Option<Rule>)
      ensures FirstMatch(ViewsOf(rules), packet).None? ==> r.None?
      ensures FirstMatch(ViewsOf(rules), packet).Some? ==>
        r == Some(rules[FirstMatch(ViewsOf(rules), packet).value])
    {
      for i := 0 to |rules|
        invariant forall j :: 0 <= j < i ==> !Matches(rules[j].View(), packet)
      {
        var m := rules[i].MatchesRule(packet);
        if m {
          FirstMatchAt(ViewsOf(rules), packet, i);
          return Some(rules[i]);
        }
      }
      r := None;
    }
  }
}
