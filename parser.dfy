/**
 * TextRuleParser: a rule line is split on whitespace runs; the first token
 * names the rule class and the remaining tokens are read as field/value
 * pairs, which the class's list constructor applies.
 */
module Parser {
  import opened Common
  import opened Text
  import opened RuleSpec
  import opened RuleFacts
  import opened Rules

  /**
   * splitPairs(tokens, start) as a value: (tokens[start], tokens[start + 1]),
   * (tokens[start + 2], tokens[start + 3]), ...; a token left without a
   * partner is read past the end of the array.
   */
  function Pairs(tokens: seq<string>, start: nat): Result<seq<Pair>, Failure>
    decreases |tokens| - start
  {
    if start >= |tokens| then Ok([])
    else if start + 1 == |tokens| then Err(IndexOutOfBounds)
    else
      var rest := Pairs(tokens, start + 2);
      if rest.Err? then rest else Ok([(tokens[start], tokens[start + 1])] + rest.value)
  }

  /** The rule class a first token selects. */
  function TierOf(keyword: string): Option<Tier> {
    if keyword == "ip" then Some(IP)
    else if keyword == "udp" then Some(UDP)
    else if keyword == "tcp" then Some(TCP)
    else None
  }

  /** parseIp, parseUdp and parseTcp: the pairs after the keyword, applied by the list constructor. */
  function ParseTokens(t: Tier, tokens: seq<string>): Result<RuleView, Failure> {
    var ps := Pairs(tokens, 1);
    if ps.Err? then Err(ps.error) else ApplyAll(Initial(t), ps.value)
  }

  /**
   * TextRuleParser.parse: no token at all (a line of whitespace) reads past
   * the end of the array; an unknown first token, including the empty one a
   * leading space or an empty line produces, is IllegalArgument.
   */
  function ParseLine(s: string): Result<RuleView, Failure> {
    var pieces := SplitWhitespace(s);
    if |pieces| == 0 then Err(IndexOutOfBounds)
    else
      var t := TierOf(pieces[0]);
      if t.None? then Err(IllegalArgument(pieces[0])) else ParseTokens(t.value, pieces)
  }

  /** splitPairs: the stepping loop over the token array. */
  method SplitPairs(tokens: seq<string>, startOffset: nat) returns (r: Result<seq<Pair>, Failure>)
    ensures r == Pairs(tokens, startOffset)
  {
    var result: seq<Pair> := [];
    var i := startOffset;
    assert Pairs(tokens, i).Ok? ==> result + Pairs(tokens, i).value == Pairs(tokens, i).value;
    while i < |tokens|
      invariant startOffset <= i
      invariant Pairs(tokens, startOffset) ==
        (if Pairs(tokens, i).Err? then Pairs(tokens, i) else Ok(result + Pairs(tokens, i).value))
      decreases |tokens| - i
    {
      if i + 1 >= |tokens| {
        return Err(IndexOutOfBounds);
      }
      var pair := (tokens[i], tokens[i + 1]);
      assert Pairs(tokens, i).Ok? ==> result + Pairs(tokens, i).value == result + [pair] + Pairs(tokens, i + 2).value;
      result := result + [pair];
      i := i + 2;
    }
    assert result + [] == result;
    r := Ok(result);
  }

  /** parseIp, parseUdp and parseTcp. */
  method ParseTier(t: Tier, tokens: seq<string>) returns (r: Result<Rule, Failure>)
    ensures ParseTokens(t, tokens).Ok? ==>
      r.Ok? && fresh(r.value) && r.value.View() == ParseTokens(t, tokens).value
    ensures ParseTokens(t, tokens).Err? ==> r == Err(ParseTokens(t, tokens).error)
  {
    var pairs := SplitPairs(tokens, 1);
    if pairs.Err? {
      return Err(pairs.error);
    }
    r := Rule.FromParameters(t, pairs.value);
  }

  /** TextRuleParser.parse */
  method Parse(s: string) returns (r: Result<Rule, Failure>)
    ensures ParseLine(s).Ok? ==> r.Ok? && fresh(r.value) && r.value.View() == ParseLine(s).value
    ensures ParseLine(s).Err? ==> r == Err(ParseLine(s).error)
  {
    var pieces := SplitWhitespace(s);
    if |pieces| == 0 {
      return Err(IndexOutOfBounds);
    }
    if pieces[0] == "ip" {
      r := ParseTier(IP, pieces);
    } else if pieces[0] == "udp" {
      r := ParseTier(UDP, pieces);
    } else if pieces[0] == "tcp" {
      r := ParseTier(TCP, pieces);
    } else {
      r := Err(IllegalArgument(pieces[0]));
    }
  }
}
