# Firewall rule engine: a verified model

This project models the rule engine of FirewallSimulator in Dafny. That engine has several parts:

- **Rule classes.** `Rule`, `IPRule`, `TCPRule` and `UDPRule` hold an action and optional subnet and port-range criteria.
- **Field setter.** `setRuleField` fills those criteria from field/value pairs.
- **Matcher.** `matchesRule` decides whether a packet satisfies a rule.
- **Text form.** `toString` writes a rule out as text.
- **Parser.** `TextRuleParser.parse` turns a line such as `udp srcAddress 192.168.1.0/24 dstPort 53 action accept` into a rule.
- **Rule list.** `RuleList` keeps rules in order and returns the first one that matches a packet.
- **Layers rule.** The older `layers.Rule` only parses an action.

## How the model is built

**Specification and objects.**
- `RuleSpec` is the pure specification. It defines the rule's fields as a value (`RuleView`) and gives the meaning of every operation as a function: `SetField`, `ApplyAll`, `Matches` and `RuleText`.
- `Rules.Rule` is the mutable object. Its methods are proved against those functions through `View()`.
- Java's subclass chain becomes a single class with a constant `tier` (`Base`, `IP`, `TCP`, `UDP`).
- Each Java override of `setRuleField` is its own method. The overrides are chained the way the `super` calls chain them.
- Java `null` is `None`. Exceptions are the `Failure` values of `Common`: `UnhandledFieldName`, `InvalidFieldValue`, `IllegalArgument`, `IndexOutOfBounds` and `NullPointer`.

**Library behaviour written out.**
- **`String.split`.** Trailing empty pieces are dropped. A line that starts with whitespace yields an empty first token. A line of only whitespace yields no token at all. This is modelled in `Text`.
- **`Integer.parseInt`.** An optional sign, ASCII digits, and the 32-bit range.
- **`String.format("%d")`.** Also in `Text`, with ASCII digits, as a default locale whose zero digit is '0' writes them.
- **Subnet containment.** `Packets` models Apache Commons Net `SubnetUtils` with its default settings. An address is in a subnet only when it lies strictly between the subnet's network address and its broadcast address.
  - The repository does not pin a Commons Net release. `Packets.InRange` reproduces the `isInRange` of current 3.x releases, which compares addresses as unsigned 32-bit values and rejects address 0 outright. Older releases compared signed ints, and there the two facts below can differ.
  - So a /31 or /32 subnet contains nothing.
  - And 0.0.0.0/0 contains neither 0.0.0.0 nor 255.255.255.255.
  - The design description calls this containment "inclusive of network and broadcast boundaries". The model follows the code.

**Where the design and the code differ.**
- **Port ranges.** The design says a range has low ≤ high. The code never checks this. A reversed range is stored and simply matches no port (`RuleFacts.ReversedRangeAddsNothing`). The model follows the code.
- **Match flags.** The design describes the `...MatchFlag` fields as negation. In the code, a set criterion whose flag is on makes the rule match nothing. Nothing ever sets a flag anyway. The model follows the code (`RuleFacts.FlagBlocksMatch`, `RuleFacts.BuiltRuleWellFormed`).

**Other modules.**
- `Parser` models `TextRuleParser`: the pairing loop, the per-class constructors and `parse`.
- `ParserFacts` proves facts about parsing:
  - what a line parses to;
  - which exception a bad line raises;
  - that the whitespace between the words does not matter;
  - that a UDP rule's `toString` text parses back to the same rule.
- `RuleLists` models `RuleList` as a class over a sequence of `Rule` objects. `checkRules` is proved against `FirstMatch`.
- `Scenario` replays the rule list and packets of `RuleListTest` as values, and proves the verdicts its `test()` expects.
- `Layers` models `layers/Rule.java`. Its action parsing is the same function as the rules package's (`RuleSpec.ActionToRuleAction`).

**The TCP matcher.** `TCPRule.matchesRule` checks the destination port against the *source* ranges (see Findings).
- `RuleSpec.Matches` and `Rules.Rule.MatchesRule` model the corrected matcher, which does what `UDPRule` does.
- `RuleSpec.TcpMatchesAsWritten` models the code as written.

## Model

| member | source | states |
|---|---|---|
| Text.SplitInterleave | FirewallSimulator/src/org/redwater/fwsim/services/TextRuleParser.java:74 | `split("\\s+")` of non-empty words joined by whitespace runs of any length gives back exactly those words |
| Text.SplitWhitespaceTokens | FirewallSimulator/src/org/redwater/fwsim/services/TextRuleParser.java:74 | every token of the split is free of whitespace, only the first can be empty, and it is empty only for an empty line or one that starts with whitespace |
| Text.SplitOnJoin | FirewallSimulator/src/org/redwater/fwsim/rules/UDPRule.java:108 | `split("-")` cuts at the first separator: the text before it is the first piece |
| Text.SplitOnAbsent | FirewallSimulator/src/org/redwater/fwsim/rules/UDPRule.java:107-108 | splitting on a character that does not occur yields the whole string as the only piece |
| Text.ParseIntNatText | FirewallSimulator/src/org/redwater/fwsim/rules/UDPRule.java:112-115 | `Integer.parseInt` reads back the decimal text of every int from 0 to 2147483647 |
| Text.ParseIntNonNegative | FirewallSimulator/src/org/redwater/fwsim/rules/UDPRule.java:112-115 | `Integer.parseInt` of a text without a leading '-' is never negative |
| Packets.InRangeIff | FirewallSimulator/src/org/redwater/fwsim/rules/IPRule.java:61 | `isInRange` holds exactly for the addresses strictly between the subnet's network and broadcast addresses |
| Packets.NarrowSubnetIsEmpty | FirewallSimulator/src/org/redwater/fwsim/rules/IPRule.java:61 | a /31 or /32 subnet contains no address at all |
| Packets.WholeSpaceSubnet | FirewallSimulator/src/org/redwater/fwsim/rules/IPRule.java:61 | 0.0.0.0/0 contains every address except 0.0.0.0 and 255.255.255.255 |
| Packets.ParseCidrText | FirewallSimulator/src/org/redwater/fwsim/rules/IPRule.java:88 | reading the canonical a.b.c.d/n text of any subnet gives that subnet back |
| Packets.ParseWholeSpace | FirewallSimulator/src/org/redwater/fwsim/rules/tests/RuleListTest.java:162 | "0.0.0.0/0" is read as the subnet of address 0 with prefix 0 |
| Packets.ParseLocalNet | FirewallSimulator/src/org/redwater/fwsim/rules/tests/RuleListTest.java:162 | "192.168.1.0/24" is read as the subnet 192.168.1.0 with prefix 24 |
| RuleFacts.ActionLiterals | FirewallSimulator/src/org/redwater/fwsim/rules/Rule.java:71-81 | an action parses exactly when it is "accept", "deny" or "reject" (case-sensitive), and any other text is UnhandledFieldName carrying that text |
| RuleFacts.ActionWordParses | FirewallSimulator/src/org/redwater/fwsim/rules/Rule.java:103-114 | the action word toString writes parses back to the same action |
| RuleFacts.UnknownFieldRejected | FirewallSimulator/src/org/redwater/fwsim/rules/Rule.java:62-63 | a field name that none of the rule's classes knows is UnhandledFieldName, whatever the value |
| RuleFacts.SetFieldEffect | FirewallSimulator/src/org/redwater/fwsim/rules/UDPRule.java:101-155 | a successful field set changes only that field: action replaces the action, an address replaces its subnet, a port appends one range to its list; everything else is unchanged |
| RuleFacts.SetFieldErrors | FirewallSimulator/src/org/redwater/fwsim/rules/UDPRule.java:101-155 | a failing set of a known field raises the exception of that field's class: UnhandledFieldName for a bad action, IllegalArgument for a bad subnet, InvalidFieldValue for a bad port |
| RuleFacts.SetFieldWellFormed | FirewallSimulator/src/org/redwater/fwsim/rules/UDPRule.java:101-155 | a field set keeps a rule well formed: the fields its class lacks stay null and the match flags stay false |
| RuleFacts.ParsePortRangeText | FirewallSimulator/src/org/redwater/fwsim/rules/UDPRule.java:103-125 | the text toString writes for a range whose bounds lie in 0..2147483647 parses back to that range |
| RuleFacts.SinglePortValue | FirewallSimulator/src/org/redwater/fwsim/rules/UDPRule.java:114-116 | a port value without '-' is the range n-n for n its parsed integer |
| RuleFacts.TrailingDashAccepted | FirewallSimulator/src/org/redwater/fwsim/rules/UDPRule.java:107-113 | "5-6-" is accepted as the range 5-6, because the split drops its trailing empty piece |
| RuleFacts.MissingEndRejected | FirewallSimulator/src/org/redwater/fwsim/rules/UDPRule.java:107-111 | "5-" splits into one piece and is InvalidFieldValue |
| RuleFacts.ApplyAllAppend | FirewallSimulator/src/org/redwater/fwsim/rules/IPRule.java:41-43 | applying a concatenation of pairs is applying the first part and then the second; a failure in the first part is the result |
| RuleFacts.ApplyAllFirstError | FirewallSimulator/src/org/redwater/fwsim/rules/IPRule.java:41-43 | a failed build fails at some pair k: the pairs before k apply and pair k raises the reported exception |
| RuleFacts.ApplyAllKeeps | FirewallSimulator/src/org/redwater/fwsim/rules/TCPRule.java:35-44 | every pair of a successful build names a field of the rule's class; the class, metadata and match flags are kept, and well-formedness is preserved |
| RuleFacts.ApplyAllAction | FirewallSimulator/src/org/redwater/fwsim/rules/Rule.java:27-31 | after a build the action is the one named by the last action pair (unchanged if there is none), and every action value was a valid literal |
| RuleFacts.ApplyAllAddresses | FirewallSimulator/src/org/redwater/fwsim/rules/IPRule.java:85-92 | after a build each subnet is the one named by the last pair of its field (unchanged if there is none) |
| RuleFacts.ApplyAllPorts | FirewallSimulator/src/org/redwater/fwsim/rules/UDPRule.java:122-149 | after a build each port list is the old list followed by the ranges of that field's pairs, in order (still null if there are none) |
| RuleFacts.BuiltRuleWellFormed | FirewallSimulator/src/org/redwater/fwsim/rules/UDPRule.java:35-44 | a rule built from pairs is well formed: in particular no match flag is ever set |
| RuleFacts.GateRequired | FirewallSimulator/src/org/redwater/fwsim/rules/IPRule.java:51-58 | a rule matches only packets carrying its class's header (IPv4; TCP or UDP as well), and a base rule matches every packet |
| RuleFacts.NoCriteriaMatchesGate | FirewallSimulator/src/org/redwater/fwsim/rules/UDPRule.java:51-93 | with no subnet and no port list set, a rule matches exactly the packets that carry its headers |
| RuleFacts.AddressCriteriaFilter | FirewallSimulator/src/org/redwater/fwsim/rules/IPRule.java:59-74 | a set subnet (flag off) passes only packets whose address it contains |
| RuleFacts.PortCriteriaFilter | FirewallSimulator/src/org/redwater/fwsim/rules/UDPRule.java:59-90 | a set port list (flag off) passes only packets whose port lies in one of its ranges |
| RuleFacts.FlagBlocksMatch | FirewallSimulator/src/org/redwater/fwsim/rules/IPRule.java:63-64 | a set criterion whose match flag is on makes the rule match no packet |
| RuleFacts.AppendRangeWidens | FirewallSimulator/src/org/redwater/fwsim/rules/UDPRule.java:63-68 | the ranges are ORed: appending a range adds exactly the ports that range holds |
| RuleFacts.ReversedRangeAddsNothing | FirewallSimulator/src/org/redwater/fwsim/rules/UDPRule.java:64 | a range whose start exceeds its end holds no port, so appending it changes no verdict |
| RuleSpec.TcpMatchesAsWritten | FirewallSimulator/src/org/redwater/fwsim/rules/TCPRule.java:51-93 | TCP `matchesRule` as written: it raises NullPointerException exactly when the packet carries TCP, its source port passes and only destination ports are configured; an accepting answer needs TCP and the IP checks, and tests the destination port against the source ranges |
| RuleFacts.TcpAsWrittenNullPointer | FirewallSimulator/src/org/redwater/fwsim/rules/TCPRule.java:76-84 | as written, a TCP rule with destination ports but no source ports raises NullPointerException on every TCP packet whose source port passes |
| RuleFacts.TcpAsWrittenWithoutDstPorts | FirewallSimulator/src/org/redwater/fwsim/rules/TCPRule.java:51-93 | as written, a TCP rule without destination ports agrees with the corrected matcher |
| RuleFacts.TcpAsWrittenUsesSourceRanges | FirewallSimulator/src/org/redwater/fwsim/rules/TCPRule.java:76-90 | as written, with both lists set, the TCP matcher behaves as the corrected one would with the destination ranges replaced by the source ranges |
| RuleFacts.TextNeedsAction | FirewallSimulator/src/org/redwater/fwsim/rules/Rule.java:103-114 | toString fails with NullPointerException exactly when the rule has no action |
| RuleFacts.TextOmitsCriteria | FirewallSimulator/src/org/redwater/fwsim/rules/UDPRule.java:161-196 | the text never depends on the subnets, and an IP or TCP rule's text does not depend on its ports |
| Rules.RangesContain | FirewallSimulator/src/org/redwater/fwsim/rules/UDPRule.java:60-68 | the flag-and-break loop sets matched exactly when some range holds the port |
| Rules.AppendClauses | FirewallSimulator/src/org/redwater/fwsim/rules/UDPRule.java:166-178 | the StringBuilder loop appends exactly one " name X" clause per range, in list order |
| Rules.Rule.constructor | FirewallSimulator/src/org/redwater/fwsim/rules/Rule.java:18-21 | a new rule has no action, empty metadata and no criteria, and is well formed |
| Rules.Rule.ForParameters | FirewallSimulator/src/org/redwater/fwsim/rules/Rule.java:27-31 | the list constructors start from no action and no criteria; the base class's leaves metadata null, the subclasses' start it empty |
| Rules.Rule.FromParameters | FirewallSimulator/src/org/redwater/fwsim/rules/Rule.java:27-31 | the list constructors build a fresh rule whose state is the pairs applied in order, or raise the exception of the first pair that fails |
| Rules.Rule.GetAction | FirewallSimulator/src/org/redwater/fwsim/rules/Rule.java:38-40 | the action is the stored one whatever the packet |
| Rules.Rule.GetRuleMetadata | FirewallSimulator/src/org/redwater/fwsim/rules/Rule.java:95-97 | the metadata is the stored one |
| Rules.Rule.SetRuleMetadata | FirewallSimulator/src/org/redwater/fwsim/rules/Rule.java:87-89 | the metadata is replaced by the argument, null included, and no other field changes |
| Rules.Rule.SetRuleField | FirewallSimulator/src/org/redwater/fwsim/rules/TCPRule.java:101-155 | the set is dispatched to the rule's own class: on success the new state is the specified one, on failure the exception is raised and the state is untouched |
| Rules.Rule.SetBaseRuleField | FirewallSimulator/src/org/redwater/fwsim/rules/Rule.java:57-65 | Rule.setRuleField has the effect specified for the base class |
| Rules.Rule.SetIPRuleField | FirewallSimulator/src/org/redwater/fwsim/rules/IPRule.java:85-97 | IPRule.setRuleField replaces a subnet or defers to the base class, as specified |
| Rules.Rule.SetTransportRuleField | FirewallSimulator/src/org/redwater/fwsim/rules/UDPRule.java:101-155 | the port setter creates the list on first use and appends, or defers to IPRule, as specified |
| Rules.Rule.MatchesRule | FirewallSimulator/src/org/redwater/fwsim/rules/IPRule.java:51-77 | matchesRule answers the specified verdict of the rule's class for every packet |
| Rules.Rule.MatchesTransport | FirewallSimulator/src/org/redwater/fwsim/rules/UDPRule.java:51-93 | the transport matcher answers the specified verdict: header present, ports in range, then the IPRule checks |
| Rules.Rule.ToString | FirewallSimulator/src/org/redwater/fwsim/rules/UDPRule.java:161-196 | toString yields the specified text, or NullPointerException when there is no action |
| Parser.SplitPairs | FirewallSimulator/src/org/redwater/fwsim/services/TextRuleParser.java:22-28 | the stepping loop yields exactly the specified pairs, or the out-of-bounds failure of an unpaired token |
| Parser.ParseTier | FirewallSimulator/src/org/redwater/fwsim/services/TextRuleParser.java:37-64 | parseIp/parseUdp/parseTcp build a fresh rule of that class from the pairs after the keyword, or raise the first failure |
| Parser.Parse | FirewallSimulator/src/org/redwater/fwsim/services/TextRuleParser.java:73-85 | parse builds a fresh rule whose state is the specified reading of the line, or raises the specified exception |
| ParserFacts.PairsReadEveryToken | FirewallSimulator/src/org/redwater/fwsim/services/TextRuleParser.java:22-28 | pairing succeeds exactly when an even number of tokens remain; then the pairs flattened are exactly those tokens, otherwise the failure is IndexOutOfBounds |
| ParserFacts.PairsAt | FirewallSimulator/src/org/redwater/fwsim/services/TextRuleParser.java:24-25 | pair k is token start+2k with token start+2k+1 |
| ParserFacts.PairsOfFlatten | FirewallSimulator/src/org/redwater/fwsim/services/TextRuleParser.java:22-28 | pairing the tokens of a list of pairs gives that list back |
| ParserFacts.ParseLineTier | FirewallSimulator/src/org/redwater/fwsim/services/TextRuleParser.java:75-84 | an unknown first token is IllegalArgument carrying it, and a rule that parses has the class its keyword names |
| ParserFacts.BlankLineRejected | FirewallSimulator/src/org/redwater/fwsim/services/TextRuleParser.java:74-75 | a non-empty line of whitespace has no token 0: IndexOutOfBounds |
| ParserFacts.LeadingSpaceRejected | FirewallSimulator/src/org/redwater/fwsim/services/TextRuleParser.java:74-83 | a line that starts with whitespace has the empty string as token 0: IllegalArgument |
| ParserFacts.EmptyLineRejected | FirewallSimulator/src/org/redwater/fwsim/services/TextRuleParser.java:74-83 | the empty line has one empty token: IllegalArgument |
| ParserFacts.ParseJoinedTokens | FirewallSimulator/src/org/redwater/fwsim/services/TextRuleParser.java:73-85 | a line of words joined by whitespace parses as its word list does |
| ParserFacts.SpacingIrrelevant | FirewallSimulator/src/org/redwater/fwsim/services/TextRuleParser.java:74 | the whitespace between the words of a line does not change what it parses to |
| ParserFacts.UnpairedTokenRejected | FirewallSimulator/src/org/redwater/fwsim/services/TextRuleParser.java:24-25 | a field name left without a value makes the line fail with IndexOutOfBounds |
| ParserFacts.PairedTokensApplied | FirewallSimulator/src/org/redwater/fwsim/services/TextRuleParser.java:37-40 | with an odd token count every token after the keyword is part of a pair, and the pairs are applied in order |
| ParserFacts.KeywordOnly | FirewallSimulator/src/org/redwater/fwsim/services/TextRuleParser.java:73-85 | a line holding only "ip", "tcp" or "udp" is a rule of that class with no criteria and no action |
| ParserFacts.UnknownActionLine | FirewallSimulator/src/org/redwater/fwsim/rules/Rule.java:71-81 | for every tier keyword and every whitespace-free word outside "accept", "deny" and "reject", the line "<keyword> action <word>" fails with UnhandledFieldName(word) |
| ParserFacts.ClausesArePairs | FirewallSimulator/src/org/redwater/fwsim/rules/UDPRule.java:166-191 | the clauses toString writes for a port list are the pairs (name, range text) written one after the other |
| ParserFacts.ApplyPortPairs | FirewallSimulator/src/org/redwater/fwsim/rules/UDPRule.java:122-149 | applying the pairs of a range list appends exactly those ranges, in order |
| ParserFacts.ParseSpacedLine | FirewallSimulator/src/org/redwater/fwsim/services/TextRuleParser.java:73-85 | a keyword and word pairs separated by single spaces parse as those pairs applied in order to a new rule of the keyword's class |
| ParserFacts.UdpTextRoundTrip | FirewallSimulator/src/org/redwater/fwsim/rules/UDPRule.java:161-196 | for a UDP rule with an action, empty metadata, no subnets and ports in 0..2147483647, parsing its toString text gives back the same rule |
| RuleLists.FirstMatch | FirewallSimulator/src/org/redwater/fwsim/rules/RuleList.java:43-50 | the result is the position of a matching rule with no earlier rule matching, or none when no rule matches |
| RuleLists.FirstMatchAt | FirewallSimulator/src/org/redwater/fwsim/rules/RuleList.java:43-50 | a matching rule preceded only by rules that do not match is the one chosen |
| RuleLists.FirstMatchAppend | FirewallSimulator/src/org/redwater/fwsim/rules/RuleList.java:31-50 | adding a rule at the end changes the verdict only for packets no earlier rule matched |
| RuleLists.RuleList.constructor | FirewallSimulator/src/org/redwater/fwsim/rules/RuleList.java:21-23 | a new list is empty |
| RuleLists.RuleList.AddRule | FirewallSimulator/src/org/redwater/fwsim/rules/RuleList.java:31-35 | a line that parses appends a fresh rule with the parsed state and returns it; one that does not raises the parse failure and leaves the list unchanged |
| RuleLists.RuleList.CheckRules | FirewallSimulator/src/org/redwater/fwsim/rules/RuleList.java:43-50 | the first rule in list order that matches the packet is returned, or null when none does |
| Scenario.TestAddresses | FirewallSimulator/src/org/redwater/fwsim/rules/tests/RuleListTest.java:191-193 | 192.168.1.1 is in 192.168.1.0/24 and 1.2.3.4 is not; both are in 0.0.0.0/0 |
| Scenario.ApplyOutbound | FirewallSimulator/src/org/redwater/fwsim/rules/tests/RuleListTest.java:162 | the pairs of an outbound line build the rule local subnet to anywhere, one source port, accept |
| Scenario.ApplyInbound | FirewallSimulator/src/org/redwater/fwsim/rules/tests/RuleListTest.java:164 | the pairs of an inbound line build the rule anywhere to the local subnet, one destination port, deny |
| Scenario.OutboundMatches | FirewallSimulator/src/org/redwater/fwsim/rules/tests/RuleListTest.java:162 | an outbound rule matches every packet of its protocol from the local subnet to anywhere with its source port |
| Scenario.OutboundMissesForeign | FirewallSimulator/src/org/redwater/fwsim/rules/tests/RuleListTest.java:162 | an outbound rule matches no packet from outside the local subnet |
| Scenario.InboundMatches | FirewallSimulator/src/org/redwater/fwsim/rules/tests/RuleListTest.java:164 | an inbound rule matches every packet of its protocol from anywhere to the local subnet with its destination port |
| Scenario.TcpTestLinesParse | FirewallSimulator/src/org/redwater/fwsim/rules/tests/RuleListTest.java:162-166 | the three TCP lines of setUp parse to the outbound, inbound and accept-all TCP rules |
| Scenario.UdpTestLinesParse | FirewallSimulator/src/org/redwater/fwsim/rules/tests/RuleListTest.java:168-172 | the three UDP lines of setUp parse to the outbound, inbound and accept-all UDP rules |
| Scenario.UdpOutboundVerdict | FirewallSimulator/src/org/redwater/fwsim/rules/tests/RuleListTest.java:293-294 | with the rules of setUp, any UDP packet from the local subnet with source port 53 reaches UDP rule 1 |
| Scenario.UdpInboundVerdict | FirewallSimulator/src/org/redwater/fwsim/rules/tests/RuleListTest.java:296-297 | any UDP packet from outside to the local subnet with destination port 53 reaches UDP rule 2 |
| Scenario.TcpOutboundVerdict | FirewallSimulator/src/org/redwater/fwsim/rules/tests/RuleListTest.java:299-300 | any TCP packet from the local subnet with source port 25 reaches TCP rule 1 (with the corrected TCP matcher) |
| Scenario.TcpInboundVerdict | FirewallSimulator/src/org/redwater/fwsim/rules/tests/RuleListTest.java:302-303 | any TCP packet from outside to the local subnet with destination port 25 reaches TCP rule 2 (with the corrected TCP matcher) |
| Scenario.UdpPacket1Verdict | FirewallSimulator/src/org/redwater/fwsim/rules/tests/RuleListTest.java:293-294 | udpPacket1 reaches UDP rule 1 |
| Scenario.UdpPacket2Verdict | FirewallSimulator/src/org/redwater/fwsim/rules/tests/RuleListTest.java:296-297 | udpPacket2 reaches UDP rule 2 |
| Scenario.TcpPacket1Verdict | FirewallSimulator/src/org/redwater/fwsim/rules/tests/RuleListTest.java:299-300 | tcpPacket1 reaches TCP rule 1 |
| Scenario.TcpPacket2Verdict | FirewallSimulator/src/org/redwater/fwsim/rules/tests/RuleListTest.java:302-303 | tcpPacket2 reaches TCP rule 2 with the corrected TCP matcher |
| Scenario.RuleListTestVerdicts | FirewallSimulator/src/org/redwater/fwsim/rules/tests/RuleListTest.java:291-305 | with the corrected TCP matcher, each of the four packets reaches the rule whose metadata the test expects |
| Scenario.FirstMatchAsWritten | FirewallSimulator/src/org/redwater/fwsim/rules/RuleList.java:43-50 | checkRules with TCPRule's matcher as written: an index it returns is a position in the list |
| Scenario.FirstMatchAsWrittenAgrees | FirewallSimulator/src/org/redwater/fwsim/rules/RuleList.java:43-50 | where no matcher raises and each answers as the corrected one does, checkRules as written picks the same rule |
| Scenario.TcpInboundAsWritten | FirewallSimulator/src/org/redwater/fwsim/rules/TCPRule.java:76-84 | as written, any TCP packet that TCP rule 1 turns away by its source port makes TCP rule 2 raise NullPointerException, and the exception escapes checkRules |
| Scenario.TcpRule2AsWritten | FirewallSimulator/src/org/redwater/fwsim/rules/TCPRule.java:79 | as written, tcpPacket2 makes TCP rule 2 raise NullPointerException, which escapes checkRules; corrected, it reaches TCP rule 2 |
| Layers.LegacyAgreesWithBase | FirewallSimulator/src/org/redwater/fwsim/layers/Rule.java:55-79 | a field set on the layers rule has exactly the effect and the failure of the rules package's base setter on the action |
| Layers.LegacyBuildAgreesWithBase | FirewallSimulator/src/org/redwater/fwsim/layers/Rule.java:25-29 | building a layers rule from pairs succeeds exactly when building a base rule does, with the same action or the same failure |
| Layers.LegacyLastActionWins | FirewallSimulator/src/org/redwater/fwsim/layers/Rule.java:25-29 | after a build the action is the one named by the last action pair, or null if there is none |
| Layers.LegacyRule.constructor | FirewallSimulator/src/org/redwater/fwsim/layers/Rule.java:17-19 | a new layers rule has no action |
| Layers.LegacyRule.FromParameters | FirewallSimulator/src/org/redwater/fwsim/layers/Rule.java:25-29 | the list constructor's loop gives the action of the pairs applied in order, or the first failure |
| Layers.LegacyRule.GetAction | FirewallSimulator/src/org/redwater/fwsim/layers/Rule.java:36-38 | getAction answers null whatever was set |
| Layers.LegacyRule.MatchesRule | FirewallSimulator/src/org/redwater/fwsim/layers/Rule.java:45-47 | matchesRule never matches |
| Layers.LegacyRule.SetRuleField | FirewallSimulator/src/org/redwater/fwsim/layers/Rule.java:55-63 | "action" takes one of the three literals and any other name raises UnhandledFieldName; a failure leaves the action unchanged |

## Left out

- Packet decoding with pcap4j is not modelled. A packet is a record saying which headers it carries (IPv4, TCP, UDP), its two addresses and its two ports. `getHostAddress` and the round trip through the dotted text are assumed faithful.
- The parsing inside `SubnetUtils` is modelled only for the canonical pattern: four 1-3 digit octets of at most 255 and a prefix of 0-32. Any other text is an `IllegalArgumentException`.
- Exception message texts are not modelled. A failure records its kind and the offending name or value.
- Rules.Rule.ToString: assumes a default locale whose zero digit is '0'. `String.format("%d", …)` (UDPRule.java:172-176, 187-191) localizes digits, so under a locale such as `th-TH-u-nu-thai` Java writes other digits where `RuleSpec.RuleText` writes ASCII ones.
- Non-ASCII digits are not modelled. `Integer.parseInt` accepts other Unicode decimal digits, but the model accepts only '0'-'9'.
- `RuleList.parse(Scanner)` is not modelled. `RuleListTest` calls it (lines 175-186 and test2, lines 307-321), but `RuleList.java` does not define it.
- The `INVALID` branch of `Rule.toString` is not modelled. It is unreachable: an action is one of the three enum values, and a null action throws before the switch picks a branch.
- Concurrency and the JUnit harness are not modelled. Neither are `System.out` and the printing in the tests.
- ParserFacts.UdpTextRoundTrip: covers only UDP rules with an action, empty metadata, no subnets and ports in 0..2147483647. This is because `toString` does not write subnets. It writes the metadata before ` action`, but `parse` never sets metadata and would read those words as field pairs, so only empty metadata reads back. A negative bound written as text would not read back as one range.
- Scenario.TcpTestLinesParse, Scenario.UdpTestLinesParse: both state the setUp lines as a keyword followed by single-spaced word pairs (`ParserFacts.SpacedLine`), not as string literals. The verifier cannot expand the literal lines cheaply. The words and their order are those of the test.
- Scenario.RuleListTestVerdicts: uses the list of rule states (`Scenario.TestRules`) that `setUp` builds, not an imperative replay of `setUp`. The replay would call `addRule` and then `setRuleMetadata` on the returned, aliased rule. `RuleLists.RuleList.AddRule` states that the returned rule is the one appended, and `Rules.Rule.SetRuleMetadata` states its effect. Their composition over six rules is not proved.
- Integer widths: port and range bounds are unbounded integers. This is sound because `Integer.parseInt` (modelled) already confines them to 32 bits, and the matcher only compares them.

## Findings

| source | as written | input that shows it | evidently intended | confidence | as-written member | corrected member |
|---|---|---|---|---|---|---|
| FirewallSimulator/src/org/redwater/fwsim/rules/TCPRule.java:79 | the destination-port loop iterates `srcPortRanges` | RuleListTest's TCP rule 2 (`dstPort 25`, no `srcPort`) with tcpPacket2 (1.2.3.4:9876 to 192.168.1.1:25): NullPointerException escapes `checkRules`, where the test expects "TCP rule 2" | iterate `dstPortRanges`, as `UDPRule.java:79` does | high, not executed | RuleSpec.TcpMatchesAsWritten, Scenario.TcpInboundAsWritten, Scenario.TcpRule2AsWritten | RuleSpec.Matches, Rules.Rule.MatchesRule, Scenario.TcpInboundVerdict, Scenario.RuleListTestVerdicts |
