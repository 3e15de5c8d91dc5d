/**
 * What TextRuleParser promises: every token after the keyword is read as
 * part of a pair, the keyword alone decides the class, the amount of
 * whitespace between tokens does not matter, and field errors come out
 * unchanged. A UDP rule's own text reads back as the same rule when it has
 * no subnets and its metadata is empty.
 */
module ParserFacts {
  import opened Common
  import opened Text
  import opened RuleSpec
  import opened RuleFacts
  import opened Parser

  /** The tokens a list of pairs is read from: key, value, key, value, ... */
  function Flatten(ps: seq<Pair>): (ts: seq<string>)
    ensures |ts| == 2 * |ps|
    decreases |ps|
  {
    if ps == [] then [] else [ps[0].0, ps[0].1] + Flatten(ps[1..])
  }

  lemma {:induction false} FlattenAt(ps: seq<Pair>, k: nat)
    requires k < |ps|
    ensures Flatten(ps)[2 * k] == ps[k].0 && Flatten(ps)[2 * k + 1] == ps[k].1
    decreases |ps|
  {
    if k > 0 {
      FlattenAt(ps[1..], k - 1);
    }
  }

  lemma {:induction false} FlattenAppend(ps: seq<Pair>, qs: seq<Pair>)
    ensures Flatten(ps + qs) == Flatten(ps) + Flatten(qs)
    decreases |ps|
  {
    if ps == [] {
      assert ps + qs == qs;
    } else {
      assert (ps + qs)[1..] == ps[1..] + qs;
      FlattenAppend(ps[1..], qs);
    }
  }

  /**
   * splitPairs succeeds exactly when an even number of tokens follows the
   * start, and then the pairs hold every one of those tokens, in order.
   */
  lemma {:induction false} PairsReadEveryToken(tokens: seq<string>, start: nat)
    requires start <= |tokens|
    ensures Pairs(tokens, start).Ok? <==> (|tokens| - start) % 2 == 0
    ensures Pairs(tokens, start).Ok? ==> Flatten(Pairs(tokens, start).value) == tokens[start..]
    ensures Pairs(tokens, start).Err? ==> Pairs(tokens, start).error == IndexOutOfBounds
    decreases |tokens| - start
  {
    if start + 1 < |tokens| {
      PairsReadEveryToken(tokens, start + 2);
      var rest := Pairs(tokens, start + 2);
      if rest.Ok? {
        var ps := [(tokens[start], tokens[start + 1])] + rest.value;
        assert ps[1..] == rest.value;
        assert tokens[start..] == [tokens[start], tokens[start + 1]] + tokens[start + 2..];
      }
    }
  }

  /** Pair k is (tokens[start + 2k], tokens[start + 2k + 1]). */
  lemma PairsAt(tokens: seq<string>, start: nat, k: nat)
    requires start <= |tokens| && Pairs(tokens, start).Ok? && k < |Pairs(tokens, start).value|
    ensures start + 2 * k + 1 < |tokens|
    ensures Pairs(tokens, start).value[k] == (tokens[start + 2 * k], tokens[start + 2 * k + 1])
  {
    var ps := Pairs(tokens, start).value;
    PairsReadEveryToken(tokens, start);
    FlattenAt(ps, k);
  }

  /** Reading pairs back from their tokens gives the pairs. */
  lemma {:induction false} PairsOfFlatten(prefix: seq<string>, ps: seq<Pair>)
    ensures Pairs(prefix + Flatten(ps), |prefix|) == Ok(ps)
    decreases |ps|
  {
    var tokens := prefix + Flatten(ps);
    if ps == [] {
      assert tokens == prefix;
    } else {
      var longer := prefix + [ps[0].0, ps[0].1];
      assert tokens == longer + Flatten(ps[1..]);
      PairsOfFlatten(longer, ps[1..]);
      assert tokens[|prefix|] == ps[0].0 && tokens[|prefix| + 1] == ps[0].1;
      assert [(ps[0].0, ps[0].1)] + ps[1..] == ps;
    }
  }

  // ---------------------------------------------------------------- the first token

  /** The keyword alone decides the class; any other first token is IllegalArgument. */
  lemma ParseLineTier(s: string)
    requires |SplitWhitespace(s)| > 0
    ensures var k := SplitWhitespace(s)[0];
      TierOf(k).None? ==> ParseLine(s) == Err(IllegalArgument(k))
    ensures var k := SplitWhitespace(s)[0];
      ParseLine(s).Ok? ==> TierOf(k).Some? && ParseLine(s).value.tier == TierOf(k).value
  {
    var pieces := SplitWhitespace(s);
    var t := TierOf(pieces[0]);
    if t.Some? && Pairs(pieces, 1).Ok? && ParseLine(s).Ok? {
      ApplyAllKeeps(Initial(t.value), Pairs(pieces, 1).value);
    }
  }

  /** A non-empty line of whitespace splits into no token at all: reading token 0 fails. */
  lemma BlankLineRejected(s: string)
    requires s != [] && AllSpace(s)
    ensures ParseLine(s) == Err(IndexOutOfBounds)
  {
    assert IsSpace(s[0]);
    assert WordLength(s) == 0;
    var n := RunLength(s[0..]);
    assert s[0..] == s;
    assert n == |s|;
    assert s[n..] == [];
    assert Pieces(s) == [s[..0]] + Pieces(s[n..]);
    assert Pieces(s) == ["", ""];
    assert DropTrailingEmpty(["", ""]) == DropTrailingEmpty([""]);
  }

  /** A line that starts with whitespace before its first word yields "" as token 0. */
  lemma LeadingSpaceRejected(s: string)
    requires s != [] && IsSpace(s[0]) && !AllSpace(s)
    ensures ParseLine(s) == Err(IllegalArgument(""))
  {
    assert WordLength(s) == 0;
    var j := RunLength(s);
    assert s[0..] == s;
    assert j < |s|;
    var rest := s[j..];
    assert !IsSpace(rest[0]);
    PiecesShape(rest);
    var fs := Pieces(s);
    assert fs == [s[..0]] + Pieces(rest);
    assert fs[0] == "" && fs[1] != "";
    var r := DropTrailingEmpty(fs);
    assert |r| > 1;
    assert r[0] == fs[0];
    assert SplitWhitespace(s) == r;
  }

  /** An empty line has one, empty, token: IllegalArgument. */
  lemma EmptyLineRejected()
    ensures ParseLine("") == Err(IllegalArgument(""))
  {
    assert SplitWhitespace("") == [""];
  }

  // ---------------------------------------------------------------- lines of tokens

  /**
   * A line of words joined by whitespace runs parses as those words: the
   * runs' lengths and kinds do not matter, and whatever the list constructor
   * raises is what parse raises.
   */
  lemma ParseJoinedTokens(tokens: seq<string>, seps: seq<string>)
    requires |tokens| == |seps| + 1
    requires forall k :: 0 <= k < |tokens| ==> tokens[k] != "" && NoSpace(tokens[k])
    requires forall k :: 0 <= k < |seps| ==> seps[k] != "" && AllSpace(seps[k])
    ensures ParseLine(Interleave(tokens, seps)) ==
      if TierOf(tokens[0]).None? then Err(IllegalArgument(tokens[0]))
      else ParseTokens(TierOf(tokens[0]).value, tokens)
  {
    SplitInterleave(tokens, seps);
  }

  /** The whitespace between the words of a rule line does not change what it parses to. */
  lemma SpacingIrrelevant(tokens: seq<string>, seps1: seq<string>, seps2: seq<string>)
    requires |tokens| == |seps1| + 1 && |seps1| == |seps2|
    requires forall k :: 0 <= k < |tokens| ==> tokens[k] != "" && NoSpace(tokens[k])
    requires forall k :: 0 <= k < |seps1| ==> seps1[k] != "" && AllSpace(seps1[k])
    requires forall k :: 0 <= k < |seps2| ==> seps2[k] != "" && AllSpace(seps2[k])
    ensures ParseLine(Interleave(tokens, seps1)) == ParseLine(Interleave(tokens, seps2))
  {
    ParseJoinedTokens(tokens, seps1);
    ParseJoinedTokens(tokens, seps2);
  }

  /** A field name left without a value is never dropped: the line fails. */
  lemma UnpairedTokenRejected(t: Tier, tokens: seq<string>)
    requires |tokens| > 0 && |tokens| % 2 == 0
    ensures ParseTokens(t, tokens) == Err(IndexOutOfBounds)
  {
    PairsReadEveryToken(tokens, 1);
  }

  /** With an odd number of tokens every token after the keyword is part of a pair applied in order. */
  lemma PairedTokensApplied(t: Tier, tokens: seq<string>)
    requires |tokens| % 2 == 1
    ensures Pairs(tokens, 1).Ok? && Flatten(Pairs(tokens, 1).value) == tokens[1..]
    ensures ParseTokens(t, tokens) == ApplyAll(Initial(t), Pairs(tokens, 1).value)
  {
    PairsReadEveryToken(tokens, 1);
  }

  function Keyword(t: Tier): string {
    match t
    case Base => ""
    case IP => "ip"
    case TCP => "tcp"
    case UDP => "udp"
  }

  /** A line holding only the keyword is a rule with no criteria and no action. */
  lemma KeywordOnly(t: Tier)
    requires t != Base
    ensures ParseLine(Keyword(t)) == Ok(Fresh(t))
  {
    assert NoSpace(Keyword(t));
    assert SplitWhitespace(Keyword(t)) == [Keyword(t)];
  }

  /**
   * A keyword line whose one pair sets the action to a word outside the three
   * literals fails with UnhandledFieldName naming that word, whatever the tier.
   */
  lemma UnknownActionLine(t: Tier, w: string)
    requires t != Base
    requires w != "" && NoSpace(w)
    requires w != "accept" && w != "deny" && w != "reject"
    ensures ParseLine(Keyword(t) + " action " + w) == Err(UnhandledFieldName(w))
  {
    var tokens := [Keyword(t), "action", w];
    assert Interleave(tokens, [" ", " "]) == Keyword(t) + " action " + w by {
      assert Interleave(tokens[2..], []) == w;
      assert Interleave(tokens[1..], [" "]) == "action" + " " + w;
    }
    assert NoSpace(Keyword(t));
    assert NoSpace("action");
    ParseJoinedTokens(tokens, [" ", " "]);
    assert tokens == [Keyword(t)] + Flatten([("action", w)]);
    PairsOfFlatten([Keyword(t)], [("action", w)]);
    ApplyAllSingle(Initial(t), ("action", w));
    ActionLiterals(w);
  }

  // ---------------------------------------------------------------- reading a rule's text back

  /** The pairs a list of ranges is written as: one (name, range text) pair per range. */
  function PortPairs(name: string, rs: seq<PortRange>): seq<Pair>
    decreases |rs|
  {
    if rs == [] then [] else PortPairs(name, rs[..|rs| - 1]) + [(name, RangeText(rs[|rs| - 1]))]
  }

  /** " key value" */
  function PairText(p: Pair): string {
    " " + p.0 + " " + p.1
  }

  /** The text of pairs as toString writes them, one after the other. */
  function PairsText(ps: seq<Pair>): string
    decreases |ps|
  {
    if ps == [] then "" else PairsText(ps[..|ps| - 1]) + PairText(ps[|ps| - 1])
  }

  /** n single spaces. */
  function Spaces(n: nat): seq<string> {
    seq(n, _ => " ")
  }

  /** A pair both of whose parts are single words. */
  predicate WordPair(p: Pair) {
    p.0 != "" && NoSpace(p.0) && p.1 != "" && NoSpace(p.1)
  }

  lemma {:induction false} PortPairsLength(name: string, rs: seq<PortRange>)
    ensures |PortPairs(name, rs)| == |rs|
    decreases |rs|
  {
    if rs != [] {
      PortPairsLength(name, rs[..|rs| - 1]);
    }
  }

  lemma {:induction false} PortPairsAt(name: string, rs: seq<PortRange>, i: nat)
    requires i < |rs|
    ensures |PortPairs(name, rs)| == |rs|
    ensures PortPairs(name, rs)[i] == (name, RangeText(rs[i]))
    decreases |rs|
  {
    var init := rs[..|rs| - 1];
    PortPairsLength(name, rs);
    PortPairsLength(name, init);
    if i < |rs| - 1 {
      PortPairsAt(name, init, i);
    }
  }

  lemma ClausesArePairs(name: string, rs: seq<PortRange>)
    ensures PortClauses(name, rs) == PairsText(PortPairs(name, rs))
    decreases |rs|
  {
    if rs != [] {
      var init := rs[..|rs| - 1];
      ClausesArePairs(name, init);
      var pp := PortPairs(name, rs);
      assert pp[..|pp| - 1] == PortPairs(name, init);
    }
  }

  lemma {:induction false} PairsTextAppend(a: seq<Pair>, b: seq<Pair>)
    ensures PairsText(a + b) == PairsText(a) + PairsText(b)
    decreases |b|
  {
    if b == [] {
      assert a + b == a;
    } else {
      var init := b[..|b| - 1];
      var last := b[|b| - 1];
      assert (a + b)[..|a + b| - 1] == a + init;
      assert (a + b)[|a + b| - 1] == last;
      PairsTextAppend(a, init);
      ConcatAssoc(PairsText(a), PairsText(init), PairText(last));
    }
  }

  /** Interleave of two concatenated token lists, joined by one more separator. */
  lemma {:induction false} InterleaveAppend(t1: seq<string>, s1: seq<string>, sep: string, t2: seq<string>, s2: seq<string>)
    requires |t1| == |s1| + 1 && |t2| == |s2| + 1
    ensures Interleave(t1 + t2, s1 + [sep] + s2) == Interleave(t1, s1) + sep + Interleave(t2, s2)
    decreases |s1|
  {
    var ts, ss := t1 + t2, s1 + [sep] + s2;
    if s1 == [] {
      assert ts[0] == t1[0] && ts[1..] == t2;
      assert ss[0] == sep && ss[1..] == s2;
    } else {
      assert ts[0] == t1[0] && ts[1..] == t1[1..] + t2;
      assert ss[0] == s1[0] && ss[1..] == s1[1..] + [sep] + s2;
      InterleaveAppend(t1[1..], s1[1..], sep, t2, s2);
      var rest := Interleave(t1[1..], s1[1..]);
      var tail := Interleave(t2, s2);
      ConcatAssoc(t1[0] + s1[0], rest + sep, tail);
      ConcatAssoc(t1[0] + s1[0], rest, sep);
    }
  }

  /** A keyword followed by pairs, single-spaced, is the keyword followed by the pairs' text. */
  lemma {:induction false} InterleavePairs(h: string, ps: seq<Pair>)
    ensures |[h] + Flatten(ps)| == |Spaces(2 * |ps|)| + 1
    ensures Interleave([h] + Flatten(ps), Spaces(2 * |ps|)) == h + PairsText(ps)
    decreases |ps|
  {
    if ps == [] {
      assert [h] + Flatten(ps) == [h];
    } else {
      var init := ps[..|ps| - 1];
      var p := ps[|ps| - 1];
      assert init + [p] == ps;
      FlattenAppend(init, [p]);
      assert Flatten([p]) == [p.0, p.1];
      assert [h] + Flatten(ps) == ([h] + Flatten(init)) + [p.0, p.1];
      assert Spaces(2 * |ps|) == Spaces(2 * |init|) + [" "] + [" "];
      InterleavePairs(h, init);
      InterleaveAppend([h] + Flatten(init), Spaces(2 * |init|), " ", [p.0, p.1], [" "]);
      assert Interleave([p.0, p.1], [" "]) == p.0 + " " + p.1;
      ConcatAssoc(h, PairsText(init), PairText(p));
    }
  }

  lemma FlattenWords(ps: seq<Pair>)
    requires forall i :: 0 <= i < |ps| ==> WordPair(ps[i])
    ensures forall k :: 0 <= k < |Flatten(ps)| ==> Flatten(ps)[k] != "" && NoSpace(Flatten(ps)[k])
  {
    forall k | 0 <= k < |Flatten(ps)|
      ensures Flatten(ps)[k] != "" && NoSpace(Flatten(ps)[k])
    {
      FlattenAt(ps, k / 2);
    }
  }

  /** A range with non-negative bounds is written as one word. */
  lemma RangeTextWord(r: PortRange)
    requires 0 <= r.low && 0 <= r.high
    ensures RangeText(r) != "" && NoSpace(RangeText(r))
  {
    var lo := NatText(r.low);
    assert NoSpace(lo);
    if r.low != r.high {
      var hi := NatText(r.high);
      assert NoSpace(hi);
      var text := lo + "-" + hi;
      forall i | 0 <= i < |text|
        ensures !IsSpace(text[i])
      {
        if i < |lo| {
          assert text[i] == lo[i];
        } else if i > |lo| {
          assert text[i] == hi[i - |lo| - 1];
        }
      }
    }
  }

  lemma PortPairsWords(name: string, rs: seq<PortRange>)
    requires name != "" && NoSpace(name)
    requires forall r :: r in rs ==> 0 <= r.low && 0 <= r.high
    ensures forall i :: 0 <= i < |PortPairs(name, rs)| ==> WordPair(PortPairs(name, rs)[i])
  {
    PortPairsLength(name, rs);
    forall i | 0 <= i < |PortPairs(name, rs)|
      ensures WordPair(PortPairs(name, rs)[i])
    {
      PortPairsAt(name, rs, i);
      assert rs[i] in rs;
      RangeTextWord(rs[i]);
    }
  }

  /** The rule a port field of a transport rule ends in after applying the pairs of a range list. */
  function WithPorts(v: RuleView, name: string, rs: seq<PortRange>): RuleView {
    if name == "srcPort" then v.(srcPortRanges := Appended(v.srcPortRanges, rs))
    else v.(dstPortRanges := Appended(v.dstPortRanges, rs))
  }

  /** One port pair appends its range. */
  lemma ApplyPortPair(v: RuleView, name: string, r: PortRange)
    requires HasPorts(v.tier)
    requires name == "srcPort" || name == "dstPort"
    requires 0 <= r.low <= MaxInt && 0 <= r.high <= MaxInt
    ensures ApplyAll(v, [(name, RangeText(r))]) == Ok(WithPorts(v, name, [r]))
  {
    ParsePortRangeText(r);
    assert [(name, RangeText(r))][1..] == [];
  }

  lemma WithPortsStep(v: RuleView, name: string, rs: seq<PortRange>, r: PortRange)
    ensures WithPorts(WithPorts(v, name, rs), name, [r]) == WithPorts(v, name, rs + [r])
  {
    if name == "srcPort" {
      assert RangesOf(Appended(v.srcPortRanges, rs)) + [r] == RangesOf(v.srcPortRanges) + (rs + [r]);
    } else {
      assert RangesOf(Appended(v.dstPortRanges, rs)) + [r] == RangesOf(v.dstPortRanges) + (rs + [r]);
    }
  }

  /** The pairs of a range list append exactly those ranges, in order. */
  lemma {:induction false} ApplyPortPairs(v: RuleView, name: string, rs: seq<PortRange>)
    requires HasPorts(v.tier)
    requires name == "srcPort" || name == "dstPort"
    requires forall r :: r in rs ==> 0 <= r.low <= MaxInt && 0 <= r.high <= MaxInt
    ensures ApplyAll(v, PortPairs(name, rs)) == Ok(WithPorts(v, name, rs))
    decreases |rs|
  {
    if rs == [] {
      assert WithPorts(v, name, rs) == v;
    } else {
      var init := rs[..|rs| - 1];
      var last := rs[|rs| - 1];
      assert init + [last] == rs;
      assert forall r :: r in init ==> r in rs;
      ApplyPortPairs(v, name, init);
      ApplyAllAppend(v, PortPairs(name, init), [(name, RangeText(last))]);
      assert last in rs;
      ApplyPortPair(WithPorts(v, name, init), name, last);
      WithPortsStep(v, name, init, last);
    }
  }

  /** The rules whose text a parser reads back as the same rule. */
  predicate Renderable(v: RuleView) {
    && v.tier == UDP && WellFormed(v)
    && v.ruleAction.Some? && v.metadata == Some("")
    && v.srcAddressMatch.None? && v.dstAddressMatch.None?
    && (forall r :: r in RangesOf(v.srcPortRanges) ==> 0 <= r.low <= MaxInt && 0 <= r.high <= MaxInt)
    && (forall r :: r in RangesOf(v.dstPortRanges) ==> 0 <= r.low <= MaxInt && 0 <= r.high <= MaxInt)
  }

  lemma UdpTextShape(c: string, w: string)
    ensures "udp" + c + " " + ("" + " action " + w) == ("udp" + c) + "  " + ("action" + " " + w)
  {
  }

  /** Applying a rule's own pairs to the initial UDP rule rebuilds it. */
  lemma RebuildFromPairs(v: RuleView)
    requires Renderable(v)
    ensures ApplyAll(Initial(UDP),
      PortPairs("srcPort", RangesOf(v.srcPortRanges)) + PortPairs("dstPort", RangesOf(v.dstPortRanges))
      + [("action", ActionWord(v.ruleAction.value))]) == Ok(v)
  {
    var S, D := RangesOf(v.srcPortRanges), RangesOf(v.dstPortRanges);
    var P1, P2 := PortPairs("srcPort", S), PortPairs("dstPort", D);
    var a := ("action", ActionWord(v.ruleAction.value));
    ApplyAllAppend(Initial(UDP), P1 + P2, [a]);
    ApplyAllAppend(Initial(UDP), P1, P2);
    ApplyPortPairs(Initial(UDP), "srcPort", S);
    var v1 := WithPorts(Initial(UDP), "srcPort", S);
    ApplyPortPairs(v1, "dstPort", D);
    var v2 := WithPorts(v1, "dstPort", D);
    ActionWordParses(v.ruleAction.value);
    assert [a][1..] == [];
    assert ApplyAll(v2, [a]) == Ok(v2.(ruleAction := v.ruleAction));
    assert [] + S == S && [] + D == D;
    assert v2.srcPortRanges == v.srcPortRanges;
    assert v2.dstPortRanges == v.dstPortRanges;
  }

  /** The tokens a renderable rule's text consists of: the keyword, then its pairs in order. */
  function RenderedPairs(v: RuleView): seq<Pair>
    requires v.ruleAction.Some?
  {
    PortPairs("srcPort", RangesOf(v.srcPortRanges)) + PortPairs("dstPort", RangesOf(v.dstPortRanges))
    + [("action", ActionWord(v.ruleAction.value))]
  }

  /** The separators of that text: single spaces, then two before "action" (the empty metadata). */
  function RenderedSeps(v: RuleView): seq<string>
    requires v.ruleAction.Some?
  {
    Spaces(2 * (|RenderedPairs(v)| - 1)) + ["  "] + [" "]
  }

  /** Pairs followed by an action pair, joined as toString joins them. */
  lemma JoinedPairs(ps: seq<Pair>, w: string)
    ensures |["udp"] + Flatten(ps + [("action", w)])| == |Spaces(2 * |ps|) + ["  "] + [" "]| + 1
    ensures Interleave(["udp"] + Flatten(ps + [("action", w)]), Spaces(2 * |ps|) + ["  "] + [" "])
      == ("udp" + PairsText(ps)) + "  " + ("action" + " " + w)
  {
    FlattenAppend(ps, [("action", w)]);
    assert Flatten([("action", w)]) == ["action", w];
    assert ["udp"] + Flatten(ps + [("action", w)]) == (["udp"] + Flatten(ps)) + ["action", w];
    InterleavePairs("udp", ps);
    InterleaveAppend(["udp"] + Flatten(ps), Spaces(2 * |ps|), "  ", ["action", w], [" "]);
    assert Interleave(["action", w], [" "]) == "action" + " " + w;
  }

  lemma RenderedClauses(v: RuleView)
    requires Renderable(v)
    ensures var ps := PortPairs("srcPort", RangesOf(v.srcPortRanges)) + PortPairs("dstPort", RangesOf(v.dstPortRanges));
      RuleText(v) == Ok(("udp" + PairsText(ps)) + "  " + ("action" + " " + ActionWord(v.ruleAction.value)))
  {
    var S, D := RangesOf(v.srcPortRanges), RangesOf(v.dstPortRanges);
    var P1, P2 := PortPairs("srcPort", S), PortPairs("dstPort", D);
    ClausesArePairs("srcPort", S);
    ClausesArePairs("dstPort", D);
    PairsTextAppend(P1, P2);
    ConcatAssoc("udp", PairsText(P1), PairsText(P2));
    UdpTextShape(PairsText(P1 + P2), ActionWord(v.ruleAction.value));
  }

  lemma RenderedText(v: RuleView)
    requires Renderable(v)
    ensures |["udp"] + Flatten(RenderedPairs(v))| == |RenderedSeps(v)| + 1
    ensures RuleText(v) == Ok(Interleave(["udp"] + Flatten(RenderedPairs(v)), RenderedSeps(v)))
  {
    var ps := PortPairs("srcPort", RangesOf(v.srcPortRanges)) + PortPairs("dstPort", RangesOf(v.dstPortRanges));
    var w := ActionWord(v.ruleAction.value);
    assert RenderedPairs(v) == ps + [("action", w)];
    assert RenderedSeps(v) == Spaces(2 * |ps|) + ["  "] + [" "];
    JoinedPairs(ps, w);
    RenderedClauses(v);
  }

  lemma WordPairsJoin(a: seq<Pair>, b: seq<Pair>, c: Pair)
    requires forall i :: 0 <= i < |a| ==> WordPair(a[i])
    requires forall i :: 0 <= i < |b| ==> WordPair(b[i])
    requires WordPair(c)
    ensures forall i :: 0 <= i < |a + b + [c]| ==> WordPair((a + b + [c])[i])
  {
    var all := a + b + [c];
    forall i | 0 <= i < |all|
      ensures WordPair(all[i])
    {
      if i < |a| {
        assert all[i] == a[i];
      } else if i < |a| + |b| {
        assert all[i] == b[i - |a|];
      } else {
        assert all[i] == c;
      }
    }
  }

  lemma RenderedWords(v: RuleView)
    requires Renderable(v)
    ensures forall i :: 0 <= i < |RenderedPairs(v)| ==> WordPair(RenderedPairs(v)[i])
  {
    var S, D := RangesOf(v.srcPortRanges), RangesOf(v.dstPortRanges);
    PortPairsWords("srcPort", S);
    PortPairsWords("dstPort", D);
    var w := ActionWord(v.ruleAction.value);
    assert WordPair(("action", w)) by {
      match v.ruleAction.value
      case ACCEPT =>
      case DENY =>
      case REJECT =>
    }
    WordPairsJoin(PortPairs("srcPort", S), PortPairs("dstPort", D), ("action", w));
  }

  lemma RenderedSplits(v: RuleView)
    requires Renderable(v)
    ensures var tokens := ["udp"] + Flatten(RenderedPairs(v));
      && |tokens| == |RenderedSeps(v)| + 1
      && (forall k :: 0 <= k < |tokens| ==> tokens[k] != "" && NoSpace(tokens[k]))
      && (forall k :: 0 <= k < |RenderedSeps(v)| ==> RenderedSeps(v)[k] != "" && AllSpace(RenderedSeps(v)[k]))
  {
    var all := RenderedPairs(v);
    var tokens := ["udp"] + Flatten(all);
    RenderedText(v);
    RenderedWords(v);
    FlattenWords(all);
    forall k | 0 <= k < |tokens|
      ensures tokens[k] != "" && NoSpace(tokens[k])
    {
      if k > 0 {
        assert tokens[k] == Flatten(all)[k - 1];
      }
    }
  }

  /** A rule line in the usual layout: the keyword, then each pair, all separated by single spaces. */
  function SpacedLine(keyword: string, ps: seq<Pair>): string {
    Interleave([keyword] + Flatten(ps), Spaces(2 * |ps|))
  }

  /** Such a line parses as its pairs applied, in order, to the keyword's class. */
  lemma ParseSpacedLine(keyword: string, t: Tier, ps: seq<Pair>)
    requires TierOf(keyword) == Some(t) && NoSpace(keyword)
    requires forall i :: 0 <= i < |ps| ==> WordPair(ps[i])
    ensures ParseLine(SpacedLine(keyword, ps)) == ApplyAll(Initial(t), ps)
  {
    var tokens := [keyword] + Flatten(ps);
    FlattenWords(ps);
    forall k | 0 <= k < |tokens|
      ensures tokens[k] != "" && NoSpace(tokens[k])
    {
      if k > 0 {
        assert tokens[k] == Flatten(ps)[k - 1];
      }
    }
    ParseJoinedTokens(tokens, Spaces(2 * |ps|));
    PairsOfFlatten([keyword], ps);
  }

  /**
   * UDPRule.toString and TextRuleParser.parse are inverse on the rules whose
   * text carries all of their state: a UDP rule with an action, empty
   * metadata, no subnets and port bounds that are non-negative ints.
   */
  lemma UdpTextRoundTrip(v: RuleView)
    requires Renderable(v)
    ensures RuleText(v).Ok? && ParseLine(RuleText(v).value) == Ok(v)
  {
    var tokens := ["udp"] + Flatten(RenderedPairs(v));
    RenderedText(v);
    RenderedSplits(v);
    ParseJoinedTokens(tokens, RenderedSeps(v));
    PairsOfFlatten(["udp"], RenderedPairs(v));
    RebuildFromPairs(v);
  }
}
