/**
 * The older rule class of the layers package: it stores an action but
 * never matches a packet and never reports its action. Its action parsing
 * is the same as the rules package's (RuleSpec.ActionToRuleAction).
 */
module Layers {
  import opened Common
  import opened Packets
  import opened RuleSpec
  import opened RuleFacts

  /** setRuleField of the layers rule: only "action" is known. */
  function LegacySetField(action: Option<RuleAction>, fieldName: string, value: string): Result<Option<RuleAction>, Failure> {
    if fieldName == "action" then
      var a := ActionToRuleAction(value);
      if a.Err? then Err(a.error) else Ok(Some(a.value))
    else Err(UnhandledFieldName(fieldName))
  }

  /** The list constructor's loop: the pairs in order, the first failure escaping. */
  function LegacyApplyAll(action: Option<RuleAction>, parameters: seq<Pair>): Result<Option<RuleAction>, Failure>
    decreases |parameters|
  {
    if parameters == [] then Ok(action)
    else
      var a := LegacySetField(action, parameters[0].0, parameters[0].1);
      if a.Err? then a else LegacyApplyAll(a.value, parameters[1..])
  }

  /** A field set on the layers rule has the effect Rule.setRuleField of the rules package has on the action. */
  lemma LegacyAgreesWithBase(v: RuleView, fieldName: string, value: string)
    ensures LegacySetField(v.ruleAction, fieldName, value).Ok? <==> SetBaseField(v, fieldName, value).Ok?
    ensures LegacySetField(v.ruleAction, fieldName, value).Ok? ==>
      LegacySetField(v.ruleAction, fieldName, value).value == SetBaseField(v, fieldName, value).value.ruleAction
    ensures LegacySetField(v.ruleAction, fieldName, value).Err? ==>
      LegacySetField(v.ruleAction, fieldName, value).error == SetBaseField(v, fieldName, value).error
  {
  }

  /**
   * Building a layers rule from pairs succeeds exactly when building a base
   * rule of the rules package from them does, with the same action or the
   * same failure.
   */
  lemma {:induction false} LegacyBuildAgreesWithBase(v: RuleView, parameters: seq<Pair>)
    requires v.tier == Base
    ensures LegacyApplyAll(v.ruleAction, parameters).Ok? <==> ApplyAll(v, parameters).Ok?
    ensures LegacyApplyAll(v.ruleAction, parameters).Ok? ==>
      LegacyApplyAll(v.ruleAction, parameters).value == ApplyAll(v, parameters).value.ruleAction
    ensures LegacyApplyAll(v.ruleAction, parameters).Err? ==>
      LegacyApplyAll(v.ruleAction, parameters).error == ApplyAll(v, parameters).error
    decreases |parameters|
  {
    if parameters != [] {
      var name, value := parameters[0].0, parameters[0].1;
      LegacyAgreesWithBase(v, name, value);
      var w := SetBaseField(v, name, value);
      if w.Ok? {
        LegacyBuildAgreesWithBase(w.value, parameters[1..]);
      }
    }
  }

  /** The action after building is the one the last "action" pair names. */
  lemma LegacyLastActionWins(parameters: seq<Pair>)
    requires LegacyApplyAll(None, parameters).Ok?
    ensures forall k :: 0 <= k < |Values(parameters, "action")| ==>
      ActionToRuleAction(Values(parameters, "action")[k]).Ok?
    ensures Values(parameters, "action") == [] ==> LegacyApplyAll(None, parameters).value.None?
    ensures Values(parameters, "action") != [] ==>
      var vals := Values(parameters, "action");
      LegacyApplyAll(None, parameters).value == Some(ActionToRuleAction(vals[|vals| - 1]).value)
  {
    var v := Initial(Base);
    LegacyBuildAgreesWithBase(v, parameters);
    ApplyAllAction(v, parameters);
  }

  class LegacyRule {
    var ruleAction: Option<RuleAction>

    /** Rule(): no action. */
    constructor ()
      ensures ruleAction.None?
    {
      ruleAction := None;
    }

    /** Rule(List): each pair set in order; the first failure escapes. */
    static method FromParameters(parameters: seq<Pair>) returns (r: Result<LegacyRule, Failure>)
      ensures LegacyApplyAll(None, parameters).Ok? ==>
        r.Ok? && fresh(r.value) && r.value.ruleAction == LegacyApplyAll(None, parameters).value
      ensures LegacyApplyAll(None, parameters).Err? ==> r == Err(LegacyApplyAll(None, parameters).error)
    {
      var rule := new LegacyRule();
      var i := 0;
      while i < |parameters|
        invariant 0 <= i <= |parameters|
        invariant fresh(rule)
        invariant LegacyApplyAll(None, parameters) == LegacyApplyAll(rule.ruleAction, parameters[i..])
      {
        assert parameters[i..][1..] == parameters[i + 1..];
        var err := rule.SetRuleField(parameters[i].0, parameters[i].1);
        if err.Some? {
          return Err(err.value);
        }
        i := i + 1;
      }
      r := Ok(rule);
    }

    /** getAction: the default always answers null, whatever was set. */
    function GetAction(packet: Packet): (r: Option<RuleAction>)
      reads this
      ensures r.None?
    {
      None
    }

    /** matchesRule: the default never matches. */
    function MatchesRule(packet: Packet): (r: bool)
      reads this
      ensures !r
    {
      false
    }

    /** setRuleField: "action" takes one of the three literals; anything else raises. */
    method SetRuleField(fieldName: string, value: string) returns (err: Option<Failure>)
      modifies this
      ensures LegacySetField(old(ruleAction), fieldName, value).Ok? ==>
        err.None? && ruleAction == LegacySetField(old(ruleAction), fieldName, value).value
      ensures LegacySetField(old(ruleAction), fieldName, value).Err? ==>
        err == Some(LegacySetField(old(ruleAction), fieldName, value).error) && ruleAction == old(ruleAction)
    {
      if fieldName == "action" {
        var a := ActionToRuleAction(value);
        if a.Err? {
          return Some(a.error);
        }
        ruleAction := Some(a.value);
        err := None;
      } else {
        err := Some(UnhandledFieldName(fieldName));
      }
    }
  }
}
