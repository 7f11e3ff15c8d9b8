/** `[network.firewall].inbound` on both sides of the build: the host's validation and wire
    encoding, and the guest's parser. */
module FirewallConfig {
  import opened Wrappers
  import opened Bytes
  import opened Text
  import opened Ruleset

  /** One configured entry, as the user wrote it. */
  datatype Entry = Entry(proto: string, ports: string)

  datatype ValidationError =
    | FirewallRequiresNetwork
    | FirewallProtoUnknown(proto: string)
    | FirewallPortsUnusable(ports: string)

  datatype Firewall = Firewall(enabled: bool, inbound: seq<Entry>)

  function ProtocolNumber(proto: string): Option<byte> {
    if proto == "tcp" then Some(IPPROTO_TCP)
    else if proto == "udp" then Some(IPPROTO_UDP)
    else None
  }

  /** A port, or an ordered inclusive range of them, within 1-65535. */
  function PortSpan(ports: string): (r: Option<(u16, u16)>)
    ensures r.Some? ==> 0 < r.value.0 <= r.value.1
  {
    var (first, last) := match SplitOnce(ports, '-') case Some(pair) => pair case None => (ports, ports);
    match (ParseU16(first), ParseU16(last))
    case (Some(f), Some(l)) => if f == 0 || l < f then None else Some((f, l))
    case _ => None
  }

  // ----- the host ----------------------------------------------------------------------------

  function ValidateEntries(inbound: seq<Entry>): Result<(), ValidationError> {
    if inbound == [] then Ok(())
    else if ProtocolNumber(inbound[0].proto).None? then Err(FirewallProtoUnknown(inbound[0].proto))
    else if PortSpan(inbound[0].ports).None? then Err(FirewallPortsUnusable(inbound[0].ports))
    else ValidateEntries(inbound[1..])
  }

  function ValidateFirewall(firewall: Firewall, hasNetwork: bool): Result<(), ValidationError> {
    if !firewall.enabled then Ok(())
    else if !hasNetwork then Err(FirewallRequiresNetwork)
    else ValidateEntries(firewall.inbound)
  }

  function WireEntry(e: Entry): string {
    e.proto + ":" + e.ports
  }

  function Wire(inbound: seq<Entry>): (wire: seq<string>)
    ensures |wire| == |inbound|
    ensures forall i :: 0 <= i < |inbound| ==> wire[i] == WireEntry(inbound[i])
  {
    seq(|inbound|, i requires 0 <= i < |inbound| => WireEntry(inbound[i]))
  }

  function EncodeInbound(inbound: seq<Entry>): string {
    Join(Wire(inbound), ';')
  }

  // ----- the guest ---------------------------------------------------------------------------

  /** `None` is the fatal branch: the guest wipes and powers off. */
  function ParseRule(entry: string): Option<Rule> {
    match SplitOnce(entry, ':')
    case None => None
    case Some((proto, ports)) =>
      match (ProtocolNumber(proto), PortSpan(ports))
      case (Some(protocol), Some((first, last))) => Some(Rule(protocol, first, last))
      case _ => None
  }

  function ParseEach(entries: seq<string>): Option<seq<Rule>> {
    if entries == [] then Some([])
    else
      match (ParseRule(entries[0]), ParseEach(entries[1..]))
      case (Some(rule), Some(rest)) => Some([rule] + rest)
      case _ => None
  }

  function ParseRules(raw: string): Option<seq<Rule>> {
    ParseEach(NonEmpty(Split(raw, ';')))
  }

  // ----- what a configuration means ----------------------------------------------------------

  predicate ValidEntry(e: Entry) {
    ProtocolNumber(e.proto).Some? && PortSpan(e.ports).Some?
  }

  function Denotes(e: Entry): Rule
    requires ValidEntry(e)
  {
    Rule(ProtocolNumber(e.proto).value, PortSpan(e.ports).value.0, PortSpan(e.ports).value.1)
  }

  function DenotesAll(inbound: seq<Entry>): (rules: seq<Rule>)
    requires forall i :: 0 <= i < |inbound| ==> ValidEntry(inbound[i])
    ensures |rules| == |inbound|
    ensures forall i :: 0 <= i < |inbound| ==> rules[i] == Denotes(inbound[i])
  {
    seq(|inbound|, i requires 0 <= i < |inbound| => Denotes(inbound[i]))
  }

  /** Validation accepts exactly the lists whose every entry is usable. */
  lemma {:induction false} ValidatesEach(inbound: seq<Entry>)
    ensures ValidateEntries(inbound).Ok? <==> forall i :: 0 <= i < |inbound| ==> ValidEntry(inbound[i])
  {
    if inbound != [] {
      ValidatesEach(inbound[1..]);
      assert forall i :: 1 <= i < |inbound| ==> inbound[i] == inbound[1..][i - 1];
    }
  }

  /** The text names the ports from `first` to `last`: one number, or two joined by a dash, between 1
      and 65535 and in order. */
  ghost predicate NamesPorts(ports: string, first: nat, last: nat) {
    && 0 < first <= last < 65536
    && ((first == last && Spells(ports, first))
        || exists a: string, b: string :: Spells(a, first) && Spells(b, last) && ports == a + "-" + b)
  }

  /** The text names the protocol with this number. */
  predicate NamesProtocol(proto: string, number: int) {
    (proto == "tcp" && number == 6) || (proto == "udp" && number == 17)
  }

  lemma SpellingHasNoDash(s: string, n: nat)
    requires Spells(s, n)
    ensures '-' !in s
  {
    var zeros: nat :| s == LeadingZeros(zeros) + Decimal(n) || s == "+" + (LeadingZeros(zeros) + Decimal(n));
    assert forall i :: 0 <= i < |Decimal(n)| ==> Decimal(n)[i] != '-';
    assert '-' !in LeadingZeros(zeros) && '-' !in Decimal(n);
  }

  /** A port text is read as the ports it names, and one that names none is refused. */
  lemma SpanIsNamed(ports: string, first: nat, last: nat)
    ensures (PortSpan(ports).Some? && PortSpan(ports).value == (first, last)) <==> NamesPorts(ports, first, last)
  {
    hide ParseUnsigned, Spells;
    if NamesPorts(ports, first, last) {
      NamedIsSpan(ports, first, last);
    }
    if PortSpan(ports).Some? && PortSpan(ports).value == (first, last) {
      var (a, b) := match SplitOnce(ports, '-') case Some(pair) => pair case None => (ports, ports);
      ParsesSpellings(a, first, 65536);
      ParsesSpellings(b, last, 65536);
      match SplitOnce(ports, '-')
      case None =>
        SameNumber(ports, first, last);
      case Some(_) =>
        assert ports == a + "-" + b;
    }
  }

  lemma SameNumber(s: string, m: nat, n: nat)
    requires Spells(s, m) && Spells(s, n)
    ensures m == n
  {
    SpellingReads(s, m);
    SpellingReads(s, n);
  }

  lemma NamedIsSpan(ports: string, first: nat, last: nat)
    requires NamesPorts(ports, first, last)
    ensures PortSpan(ports).Some? && PortSpan(ports).value == (first, last)
  {
    hide ParseUnsigned, Spells;
    if a: string, b: string :| Spells(a, first) && Spells(b, last) && ports == a + "-" + b {
      SpellingHasNoDash(a, first);
      assert ports == a + ['-'] + b;
      SplitOnceAt(a, '-', b);
      ParsesSpellings(a, first, 65536);
      ParsesSpellings(b, last, 65536);
    } else {
      SpellingHasNoDash(ports, first);
      ParsesSpellings(ports, first, 65536);
    }
  }

  /** Written out in plain decimals, a range is read as its two ends if these are in order and within
      1-65535 and refused otherwise, and a single number as a range of one. */
  lemma DecimalSpan(first: nat, last: nat)
    ensures PortSpan(Decimal(first) + "-" + Decimal(last)) ==
      if 0 < first <= last < 65536 then Some((first, last)) else None
    ensures PortSpan(Decimal(first)) == if 0 < first < 65536 then Some((first, first)) else None
  {
    hide ParseUnsigned, Spells, Decimal;
    DecimalSpells(first);
    DecimalSpells(last);
    SpellingHasNoDash(Decimal(first), first);
    assert Decimal(first) + "-" + Decimal(last) == Decimal(first) + ['-'] + Decimal(last);
    SplitOnceAt(Decimal(first), '-', Decimal(last));
    DecimalParses(first);
    DecimalParses(last);
  }

  lemma DecimalParses(n: nat)
    ensures ParseU16(Decimal(n)) == if n < 65536 then Some(n) else None
  {
    hide ParseUnsigned, Spells, Decimal;
    DecimalSpells(n);
    if n < 65536 {
      ParsesSpellings(Decimal(n), n, 65536);
    } else if ParseU16(Decimal(n)).Some? {
      var m := ParseU16(Decimal(n)).value;
      ParsesSpellings(Decimal(n), m, 65536);
      SameNumber(Decimal(n), n, m);
    }
  }

  /** What makes an entry usable, and what it denotes: the protocol and the ports its texts name. */
  lemma DenotesNamed(e: Entry, protocol: byte, first: u16, last: u16)
    ensures (ValidEntry(e) && Denotes(e) == Rule(protocol, first, last)) <==>
      NamesProtocol(e.proto, protocol) && NamesPorts(e.ports, first, last)
  {
    hide PortSpan, NamesPorts;
    SpanIsNamed(e.ports, first, last);
  }

  /** The guest's parser accepts an entry exactly when the host's validation does, and then reads
      what the entry denotes: the two sides agree on every entry, valid or not, whose protocol
      half holds no colon. */
  lemma SidesAgree(e: Entry)
    requires ':' !in e.proto
    ensures ParseRule(WireEntry(e)) == if ValidEntry(e) then Some(Denotes(e)) else None
  {
    assert WireEntry(e) == e.proto + [':'] + e.ports;
    SplitOnceAt(e.proto, ':', e.ports);
  }

  lemma PortsHoldNoSemicolon(ports: string)
    requires PortSpan(ports).Some?
    ensures ';' !in ports
  {
    match SplitOnce(ports, '-')
    case None =>
      PortChars(ports);
    case Some((first, last)) =>
      PortChars(first);
      PortChars(last);
  }

  lemma WireEntryPlain(e: Entry)
    requires ValidEntry(e)
    ensures ';' !in WireEntry(e) && ':' !in e.proto && WireEntry(e) != ""
  {
    PortsHoldNoSemicolon(e.ports);
  }

  lemma {:induction false} ParseEachYields(wire: seq<string>, rules: seq<Rule>)
    requires |wire| == |rules|
    requires forall i :: 0 <= i < |wire| ==> ParseRule(wire[i]) == Some(rules[i])
    ensures ParseEach(wire) == Some(rules)
  {
    hide ParseRule;
    if wire != [] {
      var first, rest := wire[0], wire[1..];
      ParseEachYields(rest, rules[1..]);
      assert ParseRule(first) == Some(rules[0]);
      assert rules == [rules[0]] + rules[1..];
    }
  }

  lemma WireParses(inbound: seq<Entry>)
    requires forall i :: 0 <= i < |inbound| ==> ValidEntry(inbound[i])
    ensures forall i :: 0 <= i < |inbound| ==> ';' !in Wire(inbound)[i] && Wire(inbound)[i] != ""
    ensures forall i :: 0 <= i < |inbound| ==> ParseRule(Wire(inbound)[i]) == Some(Denotes(inbound[i]))
  {
    forall i | 0 <= i < |inbound|
      ensures ';' !in Wire(inbound)[i] && Wire(inbound)[i] != ""
      ensures ParseRule(Wire(inbound)[i]) == Some(Denotes(inbound[i]))
    {
      hide ParseRule, Denotes, ValidEntry, WireEntry;
      WireEntryPlain(inbound[i]);
      SidesAgree(inbound[i]);
    }
  }

  lemma NothingParses()
    ensures ParseRules("") == Some([])
  {
    assert Split("", ';') == [""];
    assert NonEmpty([""]) == [];
  }

  /** Every list the host accepts reaches the guest as the rules it denotes, in order, without
      the fatal branch. */
  lemma InboundRoundTrip(inbound: seq<Entry>)
    requires ValidateEntries(inbound).Ok?
    ensures forall i :: 0 <= i < |inbound| ==> ValidEntry(inbound[i])
    ensures ParseRules(EncodeInbound(inbound)) == Some(DenotesAll(inbound))
  {
    ValidatesEach(inbound);
    hide ParseRule, ValidEntry, Denotes, WireEntry, ValidateEntries, ParseEach, Split, NonEmpty;
    WireParses(inbound);
    if inbound == [] {
      NothingParses();
      assert DenotesAll(inbound) == [];
    } else {
      hide Join;
      SplitJoin(Wire(inbound), ';');
      NonEmptyAll(Wire(inbound));
      ParseEachYields(Wire(inbound), DenotesAll(inbound));
    }
  }

  /** The characters an accepted list is encoded in. */
  predicate RuleChar(c: char) {
    'a' <= c <= 'z' || DigitOrPlus(c) || c == ':' || c == ';' || c == '-'
  }

  predicate RuleText(s: string) {
    forall i :: 0 <= i < |s| ==> RuleChar(s[i])
  }

  lemma {:induction false} JoinsToRuleText(parts: seq<string>)
    requires forall i :: 0 <= i < |parts| ==> RuleText(parts[i])
    ensures RuleText(Join(parts, ';'))
  {
    if |parts| > 1 {
      JoinsToRuleText(parts[1..]);
    }
  }

  lemma PortsAreRuleText(ports: string)
    requires PortSpan(ports).Some?
    ensures RuleText(ports)
  {
    match SplitOnce(ports, '-')
    case None =>
      PortChars(ports);
    case Some((first, last)) =>
      PortChars(first);
      PortChars(last);
      assert ports == first + ['-'] + last;
  }

  lemma EncodesToRuleText(inbound: seq<Entry>)
    requires forall i :: 0 <= i < |inbound| ==> ValidEntry(inbound[i])
    ensures RuleText(EncodeInbound(inbound))
  {
    forall i | 0 <= i < |inbound|
      ensures RuleText(Wire(inbound)[i])
    {
      hide PortSpan;
      PortsAreRuleText(inbound[i].ports);
      assert inbound[i].proto == "tcp" || inbound[i].proto == "udp";
      assert RuleText(inbound[i].proto) && RuleText(":");
    }
    JoinsToRuleText(Wire(inbound));
  }
}
