/** From configuration to verdict: what the installed bytes do to every packet is what the
    configuration says, and the reply count matches the messages that ask for one. */
module FirewallTheorem {
  import opened Wrappers
  import opened Bytes
  import opened Netlink
  import opened Nft
  import opened Ruleset
  import opened FirewallConfig
  import opened Text
  import Builder = BatchBuilder
  import Replies

  // ----- the policy, said without any rule ---------------------------------------------------

  /** Packets as the hook delivers them: the interface name fills its fixed field. */
  predicate Hooked(p: Packet) {
    |p.iifname| == 16
  }

  predicate CtHas(p: Packet, bit: u32)
    requires bit > 0
  {
    p.ctState / bit % 2 == 1
  }

  predicate Carries(p: Packet, protocol: byte) {
    p.transport.Some? && p.transport.value.proto == protocol
  }

  predicate IcmpTypeIs(p: Packet, t: byte) {
    p.transport.Some? && |p.transport.value.header| >= 1 && p.transport.value.header[0] == t
  }

  predicate Icmpv6Allowed(p: Packet) {
    p.nfproto == NFPROTO_IPV6 && Carries(p, IPPROTO_ICMPV6)
    && exists t :: t in ICMPV6_ALLOWED_TYPES && IcmpTypeIs(p, t)
  }

  predicate Icmpv4Allowed(p: Packet) {
    p.nfproto == NFPROTO_IPV4 && Carries(p, IPPROTO_ICMP) && IcmpTypeIs(p, ICMPV4_DEST_UNREACH)
  }

  /** The destination port of a TCP or UDP header, as a number. */
  function DestPort(header: seq<byte>): int
    requires |header| >= 4
  {
    var hi: int, lo: int := header[2], header[3];
    256 * hi + lo
  }

  predicate PortOpen(r: Rule, p: Packet) {
    Carries(p, r.protocol) && |p.transport.value.header| >= 4
    && r.firstPort <= DestPort(p.transport.value.header) <= r.lastPort
  }

  predicate AllowedByRules(rules: seq<Rule>, p: Packet) {
    || p.iifname == LO
    || CtHas(p, CT_STATE_ESTABLISHED) || CtHas(p, CT_STATE_RELATED)
    || (!CtHas(p, CT_STATE_INVALID)
        && (Icmpv6Allowed(p) || Icmpv4Allowed(p)
            || exists i :: 0 <= i < |rules| && PortOpen(rules[i], p)))
  }

  /** The entry, as it is written, opens this packet's way: it names the packet's protocol and a range
      its destination port is in. */
  ghost predicate Opens(e: Entry, p: Packet) {
    && p.transport.Some? && |p.transport.value.header| >= 4
    && NamesProtocol(e.proto, p.transport.value.proto)
    && exists first: nat, last: nat ::
         NamesPorts(e.ports, first, last) && first <= DestPort(p.transport.value.header) <= last
  }

  /** Neighbour and router discovery, and multicast listener queries: ICMPv6 types by number. */
  predicate Discovery(p: Packet) {
    && p.nfproto == 10 && Carries(p, 58)
    && (IcmpTypeIs(p, 2) || IcmpTypeIs(p, 130) || IcmpTypeIs(p, 133) || IcmpTypeIs(p, 134)
        || IcmpTypeIs(p, 135) || IcmpTypeIs(p, 136))
  }

  predicate Unreachable(p: Packet) {
    p.nfproto == 2 && Carries(p, 1) && IcmpTypeIs(p, 3)
  }

  /** The whole policy in the configuration's own terms and the kernel's numbers: loopback; connection
      states established (2) and related (4); unless the state is invalid (1), the two kinds of ICMP and
      what some entry opens. */
  ghost predicate Allowed(inbound: seq<Entry>, p: Packet) {
    || p.iifname == LO
    || CtHas(p, 2) || CtHas(p, 4)
    || (!CtHas(p, 1) && (Discovery(p) || Unreachable(p) || exists i :: 0 <= i < |inbound| && Opens(inbound[i], p)))
  }

  // ----- evaluating the rules ----------------------------------------------------------------

  lemma StepAt(r: seq<Expr>, k: nat, reg: seq<byte>, p: Packet)
    requires k < |r|
    ensures EvalRule(r[k..], reg, p) == match EvalExpr(r[k], reg, p)
      case Next(reg') => EvalRule(r[k + 1..], reg', p)
      case Break => None
      case Verdict(code) => Some(code)
  {
    assert r[k..][1..] == r[k + 1..];
  }

  lemma EvalLoopback(p: Packet)
    requires Hooked(p)
    ensures EvalRule(LOOPBACK_RULE, [], p) == if p.iifname == LO then Some(NF_ACCEPT) else None
  {
    var r := LOOPBACK_RULE;
    assert r[0..] == r;
    assert p.iifname[..16] == p.iifname;
    StepAt(r, 0, [], p);
    StepAt(r, 1, p.iifname, p);
    StepAt(r, 2, p.iifname, p);
  }

  lemma EvalCt(mask: u32, code: u32, p: Packet)
    ensures EvalRule(CtRule(mask, code), [], p) == if And(p.ctState, mask) != 0 then Some(code) else None
  {
    var r := CtRule(mask, code);
    assert r[0..] == r;
    AndBelow(p.ctState, mask);
    var before, masked := Le32(p.ctState), Le32(And(p.ctState, mask));
    assert before[..4] == before && masked[..4] == masked;
    WordsReadBack(0, p.ctState);
    StepAt(r, 0, [], p);
    StepAt(r, 1, before, p);
    StepAt(r, 2, masked, p);
    StepAt(r, 3, masked, p);
    if masked == Le32(0) {
      Le32Injective(And(p.ctState, mask), 0);
    }
  }

  /** The mask test reads exactly the bits it names. */
  lemma MaskBits(ct: u32)
    ensures And(ct, CT_STATE_INVALID) != 0 <==> ct % 2 == 1
    ensures And(ct, CT_STATE_ESTABLISHED + CT_STATE_RELATED) != 0 <==> ct / 2 % 2 == 1 || ct / 4 % 2 == 1
  {
    assert And(ct / 2, 0) == 0 && And(ct / 8, 0) == 0;
    assert And(ct, 1) == if ct == 0 then 0 else ct % 2 * 1;
    assert And(ct / 4, 1) == if ct / 4 == 0 then 0 else ct / 4 % 2 * 1;
    assert ct / 2 / 2 == ct / 4;
    assert And(ct / 2, 3) == if ct / 2 == 0 then 0 else ct / 2 % 2 * 1 + 2 * And(ct / 2 / 2, 1);
    assert And(ct, 6) == if ct == 0 then 0 else ct % 2 * 0 + 2 * And(ct / 2, 3);
  }

  /** `meta load` and the comparison after it, as the k-th and next expression of a rule. */
  lemma EvalMetaIs(r: seq<Expr>, k: nat, key: u32, v: byte, reg: seq<byte>, p: Packet)
    requires k + 1 < |r| && r[k] == Meta(key) && r[k + 1] == Cmp(NFT_CMP_EQ, [v])
    requires key == NFT_META_NFPROTO || key == NFT_META_L4PROTO
    ensures EvalRule(r[k..], reg, p) ==
      if (if key == NFT_META_NFPROTO then p.nfproto == v else Carries(p, v)) then EvalRule(r[k + 2..], [v], p)
      else None
  {
    StepAt(r, k, reg, p);
    if EvalMeta(key, p).Next? {
      var loaded := EvalMeta(key, p).reg;
      assert loaded[..1] == loaded;
      StepAt(r, k + 1, loaded, p);
    }
  }

  lemma EvalIcmp(family: byte, protocol: byte, t: byte, p: Packet)
    ensures EvalRule(IcmpRule(family, protocol, t), [], p) ==
      if p.nfproto == family && Carries(p, protocol) && IcmpTypeIs(p, t) then Some(NF_ACCEPT) else None
  {
    var r := IcmpRule(family, protocol, t);
    assert r[0..] == r;
    EvalMetaIs(r, 0, NFT_META_NFPROTO, family, [], p);
    EvalMetaIs(r, 2, NFT_META_L4PROTO, protocol, [family], p);
    StepAt(r, 4, [protocol], p);
    if Carries(p, protocol) && |p.transport.value.header| >= 1 {
      var loaded := p.transport.value.header[0..1];
      assert loaded[..1] == loaded == [p.transport.value.header[0]];
      StepAt(r, 5, loaded, p);
      StepAt(r, 6, loaded, p);
    }
  }

  /** The port test on raw header bytes is the numeric range test. */
  lemma EvalPortTest(r: Rule, loaded: seq<byte>, p: Packet)
    requires |loaded| == 2
    ensures EvalExpr(PortTest(r), loaded, p) ==
      if r.firstPort <= FromBe16(loaded) <= r.lastPort then Next(loaded) else Break
  {
    assert loaded[..2] == loaded == Be16(FromBe16(loaded));
    BigEndianOrder(r.firstPort, FromBe16(loaded));
    BigEndianOrder(FromBe16(loaded), r.lastPort);
    WordsReadBack(r.firstPort, 0);
  }

  lemma EvalPort(rule: Rule, p: Packet)
    ensures EvalRule(PortRule(rule), [], p) == if PortOpen(rule, p) then Some(NF_ACCEPT) else None
  {
    var r := PortRule(rule);
    assert r[0..] == r;
    EvalMetaIs(r, 0, NFT_META_L4PROTO, rule.protocol, [], p);
    StepAt(r, 2, [rule.protocol], p);
    if Carries(p, rule.protocol) && |p.transport.value.header| >= 4 {
      var loaded := p.transport.value.header[2..4];
      assert FromBe16(loaded) == DestPort(p.transport.value.header);
      EvalPortTest(rule, loaded, p);
      StepAt(r, 3, loaded, p);
      StepAt(r, 4, loaded, p);
    }
  }

  // ----- evaluating chains -------------------------------------------------------------------

  lemma {:induction false} ChainConcat(xs: seq<seq<Expr>>, ys: seq<seq<Expr>>, policy: u32, p: Packet)
    ensures EvalChain(xs + ys, policy, p) == EvalChain(xs, EvalChain(ys, policy, p), p)
  {
    if xs == [] {
      assert xs + ys == ys;
    } else {
      assert (xs + ys)[0] == xs[0] && (xs + ys)[1..] == xs[1..] + ys;
      ChainConcat(xs[1..], ys, policy, p);
    }
  }

  /** A run of accept rules accepts exactly when one of them matches. */
  lemma {:induction false} AcceptRun(rules: seq<seq<Expr>>, policy: u32, p: Packet)
    requires forall i :: 0 <= i < |rules| ==>
      EvalRule(rules[i], [], p) == None || EvalRule(rules[i], [], p) == Some(NF_ACCEPT)
    ensures EvalChain(rules, policy, p) ==
      if exists i :: 0 <= i < |rules| && EvalRule(rules[i], [], p).Some? then NF_ACCEPT else policy
  {
    if rules != [] {
      AcceptRun(rules[1..], policy, p);
      assert forall i :: 1 <= i < |rules| ==> rules[i] == rules[1..][i - 1];
      assert forall i :: 0 <= i < |rules| - 1 ==> rules[1..][i] == rules[i + 1];
    }
  }

  lemma EvalPorts(rules: seq<Rule>, policy: u32, p: Packet)
    ensures EvalChain(PortRules(rules), policy, p) ==
      if exists i :: 0 <= i < |rules| && PortOpen(rules[i], p) then NF_ACCEPT else policy
  {
    var chain := PortRules(rules);
    forall i | 0 <= i < |rules|
      ensures EvalRule(chain[i], [], p) == if PortOpen(rules[i], p) then Some(NF_ACCEPT) else None
    {
      EvalPort(rules[i], p);
    }
    hide EvalRule, PortOpen;
    AcceptRun(chain, policy, p);
    if i :| 0 <= i < |rules| && PortOpen(rules[i], p) {
      assert EvalRule(chain[i], [], p).Some?;
    }
  }

  function Icmpv6Rules(): (r: seq<seq<Expr>>)
    ensures |r| == 6
  {
    seq(6, i requires 0 <= i < 6 => IcmpRule(NFPROTO_IPV6, IPPROTO_ICMPV6, ICMPV6_ALLOWED_TYPES[i]))
  }

  lemma EvalIcmpv6(policy: u32, p: Packet)
    ensures EvalChain(Icmpv6Rules(), policy, p) == if Icmpv6Allowed(p) then NF_ACCEPT else policy
  {
    var chain := Icmpv6Rules();
    forall i | 0 <= i < 6
      ensures EvalRule(chain[i], [], p) ==
        if p.nfproto == NFPROTO_IPV6 && Carries(p, IPPROTO_ICMPV6) && IcmpTypeIs(p, ICMPV6_ALLOWED_TYPES[i])
        then Some(NF_ACCEPT) else None
    {
      EvalIcmp(NFPROTO_IPV6, IPPROTO_ICMPV6, ICMPV6_ALLOWED_TYPES[i], p);
    }
    hide EvalRule, IcmpTypeIs, Carries;
    AcceptRun(chain, policy, p);
    if Icmpv6Allowed(p) {
      var t :| t in ICMPV6_ALLOWED_TYPES && IcmpTypeIs(p, t);
      var i :| 0 <= i < 6 && ICMPV6_ALLOWED_TYPES[i] == t;
      assert EvalRule(chain[i], [], p).Some?;
    }
  }

  lemma ChainOne(rule: seq<Expr>, policy: u32, p: Packet)
    ensures EvalChain([rule], policy, p) == match EvalRule(rule, [], p) case Some(code) => code case None => policy
  {
    assert [rule][1..] == [];
  }

  lemma EvalHead(policy: u32, p: Packet)
    requires Hooked(p)
    ensures EvalChain([LOOPBACK_RULE], policy, p) == if p.iifname == LO then NF_ACCEPT else policy
    ensures EvalChain([CtRule(CT_STATE_ESTABLISHED + CT_STATE_RELATED, NF_ACCEPT)], policy, p) ==
      if CtHas(p, CT_STATE_ESTABLISHED) || CtHas(p, CT_STATE_RELATED) then NF_ACCEPT else policy
    ensures EvalChain([CtRule(CT_STATE_INVALID, NF_DROP)], policy, p) ==
      if CtHas(p, CT_STATE_INVALID) then NF_DROP else policy
    ensures EvalChain([IcmpRule(NFPROTO_IPV4, IPPROTO_ICMP, ICMPV4_DEST_UNREACH)], policy, p) ==
      if Icmpv4Allowed(p) then NF_ACCEPT else policy
  {
    hide EvalRule, EvalChain, And;
    EvalLoopback(p);
    EvalCt(CT_STATE_ESTABLISHED + CT_STATE_RELATED, NF_ACCEPT, p);
    EvalCt(CT_STATE_INVALID, NF_DROP, p);
    MaskBits(p.ctState);
    EvalIcmp(NFPROTO_IPV4, IPPROTO_ICMP, ICMPV4_DEST_UNREACH, p);
    ChainOne(LOOPBACK_RULE, policy, p);
    ChainOne(CtRule(CT_STATE_ESTABLISHED + CT_STATE_RELATED, NF_ACCEPT), policy, p);
    ChainOne(CtRule(CT_STATE_INVALID, NF_DROP), policy, p);
    ChainOne(IcmpRule(NFPROTO_IPV4, IPPROTO_ICMP, ICMPV4_DEST_UNREACH), policy, p);
  }

  /** The whole chain, rule order included: accept exactly the allowed packets, drop the rest. */
  lemma ChainDecides(rules: seq<Rule>, p: Packet)
    requires Hooked(p)
    ensures EvalChain(AllRules(rules), NF_DROP, p) == if AllowedByRules(rules, p) then NF_ACCEPT else NF_DROP
  {
    var lo, est := LOOPBACK_RULE, CtRule(CT_STATE_ESTABLISHED + CT_STATE_RELATED, NF_ACCEPT);
    var inv, v4 := CtRule(CT_STATE_INVALID, NF_DROP), IcmpRule(NFPROTO_IPV4, IPPROTO_ICMP, ICMPV4_DEST_UNREACH);
    var v6, ports := Icmpv6Rules(), PortRules(rules);
    assert AllRules(rules) == [lo] + ([est] + ([inv] + (v6 + ([v4] + ports))));
    hide EvalChain, LOOPBACK_RULE, CtRule, IcmpRule, Icmpv6Rules, PortRules;
    hide Icmpv6Allowed, Icmpv4Allowed, PortOpen, CtHas;
    var e := EvalChain(ports, NF_DROP, p);
    EvalPorts(rules, NF_DROP, p);
    ChainConcat([v4], ports, NF_DROP, p);
    EvalHead(e, p);
    var d := EvalChain([v4] + ports, NF_DROP, p);
    ChainConcat(v6, [v4] + ports, NF_DROP, p);
    EvalIcmpv6(d, p);
    var c := EvalChain(v6 + ([v4] + ports), NF_DROP, p);
    ChainConcat([inv], v6 + ([v4] + ports), NF_DROP, p);
    EvalHead(c, p);
    var b := EvalChain([inv] + (v6 + ([v4] + ports)), NF_DROP, p);
    ChainConcat([est], [inv] + (v6 + ([v4] + ports)), NF_DROP, p);
    EvalHead(b, p);
    var a := EvalChain([est] + ([inv] + (v6 + ([v4] + ports))), NF_DROP, p);
    ChainConcat([lo], [est] + ([inv] + (v6 + ([v4] + ports))), NF_DROP, p);
    EvalHead(a, p);
  }

  // ----- bytes to verdicts -------------------------------------------------------------------

  /** Decoding the batch's bytes and committing what they say gives the policy. */
  lemma BytesDecide(rules: seq<Rule>, family: byte, p: Packet)
    requires MsgsFit(BatchMsgs(family, AllRules(rules)))
    requires Hooked(p) && Covers(family, p.nfproto)
    ensures var bytes := EncodeMsgs(BatchMsgs(family, AllRules(rules)));
      DecodeMsgs(bytes).Some?
      && Inbound(Commit(DecodeMsgs(bytes).value), p) == if AllowedByRules(rules, p) then NF_ACCEPT else NF_DROP
  {
    hide EvalChain, AllRules, AllowedByRules, BatchMsgs;
    MsgsRoundTrip(BatchMsgs(family, AllRules(rules)));
    CommitBatch(family, AllRules(rules));
    ChainDecides(rules, p);
  }

  lemma OpensDenotes(e: Entry, p: Packet)
    requires ValidEntry(e)
    ensures Opens(e, p) <==> PortOpen(Denotes(e), p)
  {
    var r := Denotes(e);
    DenotesNamed(e, r.protocol, r.firstPort, r.lastPort);
    hide NamesPorts, ValidEntry, Denotes;
    if Opens(e, p) {
      var first: nat, last: nat :|
        NamesPorts(e.ports, first, last) && first <= DestPort(p.transport.value.header) <= last;
      PortsBounded(e.ports, first, last);
      DenotesNamed(e, p.transport.value.proto, first, last);
    }
  }

  lemma PortsBounded(ports: string, first: nat, last: nat)
    requires NamesPorts(ports, first, last)
    ensures first < 65536 && last < 65536
  {
  }

  lemma IcmpInNumbers(p: Packet)
    ensures Icmpv6Allowed(p) <==> Discovery(p)
    ensures Icmpv4Allowed(p) <==> Unreachable(p)
  {
    var types := ICMPV6_ALLOWED_TYPES;
    assert types[0] == 2 && types[1] == 130 && types[2] == 133 && types[3] == 134 && types[4] == 135 && types[5] == 136;
    if Icmpv6Allowed(p) {
      var t :| t in types && IcmpTypeIs(p, t);
      var i :| 0 <= i < 6 && types[i] == t;
    }
  }

  lemma AllowedDenotes(inbound: seq<Entry>, p: Packet)
    requires forall i :: 0 <= i < |inbound| ==> ValidEntry(inbound[i])
    ensures AllowedByRules(DenotesAll(inbound), p) <==> Allowed(inbound, p)
  {
    hide PortOpen, Denotes, Opens, ValidEntry, Icmpv6Allowed, Icmpv4Allowed, Discovery, Unreachable;
    IcmpInNumbers(p);
    var rules := DenotesAll(inbound);
    forall i | 0 <= i < |inbound|
      ensures PortOpen(rules[i], p) <==> Opens(inbound[i], p)
    {
      OpensDenotes(inbound[i], p);
    }
  }

  datatype InstallError = MalformedRules | BuildFailed

  /** What the guest's half of the pipeline makes of the string baked into it. */
  function Compiled(raw: string, family: byte): Result<Builder.Batch, InstallError> {
    var rules := ParseRules(raw);
    if rules.None? then Err(MalformedRules)
    else
      var msgs := BatchMsgs(family, AllRules(rules.value));
      if MsgsFit(msgs) then Ok(Builder.Batch(EncodeMsgs(msgs), Seq(|rules.value| + 14) - 2)) else Err(BuildFailed)
  }

  /** From the baked string to the bytes it sends: a malformed string is the only way to fail, since
      the batch of any rules fits its buffer. */
  method CompileRules(raw: string, family: byte) returns (r: Result<Builder.Batch, InstallError>)
    ensures r == Compiled(raw, family)
    ensures r.Err? <==> ParseRules(raw).None?
  {
    var rules := ParseRules(raw);
    if rules.None? {
      return Err(MalformedRules);
    }
    var batch := Builder.BuildBatch(rules.value, family);
    return Ok(batch.value);
  }

  /** The table's family follows the image's network features. */
  function TableFamily(ipv6: bool): byte {
    if ipv6 then NFPROTO_INET else NFPROTO_IPV4
  }

  /** The table is consulted for IPv4 packets always, and for IPv6 ones exactly in an image that has
      IPv6. */
  lemma TableCovers(ipv6: bool)
    ensures Covers(TableFamily(ipv6), 2) && (Covers(TableFamily(ipv6), 10) <==> ipv6)
  {
  }

  /** The packets an image's network stack can deliver: IPv6 ones only when it has IPv6. */
  predicate Delivered(ipv6: bool, p: Packet) {
    Hooked(p) && (p.nfproto == NFPROTO_IPV4 || (ipv6 && p.nfproto == NFPROTO_IPV6))
  }

  /** The bytes `r` holds make the kernel accept (1) exactly the packets `inbound` allows among those its
      stack delivers, and drop (0) every other one. */
  ghost predicate Enforces(r: Result<Builder.Batch, InstallError>, inbound: seq<Entry>, ipv6: bool)
  {
    && r.Ok? && DecodeMsgs(r.value.bytes).Some?
    && forall p: Packet :: Delivered(ipv6, p) ==>
         Inbound(Commit(DecodeMsgs(r.value.bytes).value), p)
           == if Allowed(inbound, p) then 1 else 0
  }

  /** Compiling a string that parses as the rules some entries denote enforces those entries. */
  lemma CompiledEnforces(raw: string, inbound: seq<Entry>, ipv6: bool)
    requires forall i :: 0 <= i < |inbound| ==> ValidEntry(inbound[i])
    requires ParseRules(raw) == Some(DenotesAll(inbound))
    ensures Compiled(raw, TableFamily(ipv6)).Ok? && Enforces(Compiled(raw, TableFamily(ipv6)), inbound, ipv6)
  {
    var family, rules := TableFamily(ipv6), DenotesAll(inbound);
    var r := Compiled(raw, family);
    Builder.AllRulesShort(rules);
    Builder.BatchFits(family, AllRules(rules));
    MsgsRoundTrip(BatchMsgs(family, AllRules(rules)));
    hide Inbound, Commit, AllowedByRules, Allowed, BatchMsgs, AllRules;
    forall p: Packet | Delivered(ipv6, p)
      ensures Inbound(Commit(DecodeMsgs(r.value.bytes).value), p) == if Allowed(inbound, p) then 1 else 0
    {
      BytesDecide(rules, family, p);
      AllowedDenotes(inbound, p);
    }
  }

  method CompileEntries(raw: string, ghost inbound: seq<Entry>, ipv6: bool)
      returns (r: Result<Builder.Batch, InstallError>)
    requires forall i :: 0 <= i < |inbound| ==> ValidEntry(inbound[i])
    requires ParseRules(raw) == Some(DenotesAll(inbound))
    ensures r == Compiled(raw, TableFamily(ipv6))
    ensures Enforces(r, inbound, ipv6)
  {
    CompiledEnforces(raw, inbound, ipv6);
    r := CompileRules(raw, TableFamily(ipv6));
  }

  /** Meaning is preserved from configuration to verdict: for every firewall section the host
      accepts, what it encodes, compiled by the guest, enforces the section's entries. */
  method InstalledPolicy(firewall: Firewall, hasNetwork: bool, ipv6: bool)
      returns (r: Result<Builder.Batch, InstallError>)
    requires firewall.enabled && ValidateFirewall(firewall, hasNetwork).Ok?
    ensures forall i :: 0 <= i < |firewall.inbound| ==> ValidEntry(firewall.inbound[i])
    ensures r == Compiled(EncodeInbound(firewall.inbound), TableFamily(ipv6))
    ensures Enforces(r, firewall.inbound, ipv6)
  {
    InboundRoundTrip(firewall.inbound);
    r := CompileEntries(EncodeInbound(firewall.inbound), firewall.inbound, ipv6);
  }

  /** Port rules only ever open: adding entries never closes a packet out. */
  lemma MoreEntriesAllowMore(some: seq<Entry>, more: seq<Entry>, p: Packet)
    ensures Allowed(some, p) ==> Allowed(some + more, p)
  {
    hide Opens, Discovery, Unreachable;
    assert forall i :: 0 <= i < |some| ==> (some + more)[i] == some[i];
  }

  /** For entries written as plain decimal ranges: a packet nothing else decides is let in exactly if
      some entry has its protocol and its destination port within its two numbers. */
  lemma RangesDecide(inbound: seq<Entry>, ranges: seq<(nat, nat)>, p: Packet)
    requires |ranges| == |inbound|
    requires forall i :: 0 <= i < |inbound| ==>
      && 0 < ranges[i].0 <= ranges[i].1 < 65536
      && inbound[i].ports == Decimal(ranges[i].0) + "-" + Decimal(ranges[i].1)
    requires p.iifname != LO && !CtHas(p, 2) && !CtHas(p, 4) && !CtHas(p, 1) && !Discovery(p) && !Unreachable(p)
    ensures Allowed(inbound, p) <==>
      && p.transport.Some? && |p.transport.value.header| >= 4
      && exists i :: 0 <= i < |inbound|
           && (if p.transport.value.proto == 6 then inbound[i].proto == "tcp"
               else p.transport.value.proto == 17 && inbound[i].proto == "udp")
           && ranges[i].0 <= DestPort(p.transport.value.header) <= ranges[i].1
  {
    hide NamesPorts, Discovery, Unreachable, Decimal;
    forall i | 0 <= i < |inbound|
      ensures Opens(inbound[i], p) <==>
        && p.transport.Some? && |p.transport.value.header| >= 4
        && (if p.transport.value.proto == 6 then inbound[i].proto == "tcp"
            else p.transport.value.proto == 17 && inbound[i].proto == "udp")
        && ranges[i].0 <= DestPort(p.transport.value.header) <= ranges[i].1
    {
      RangeNamed(inbound[i].ports, ranges[i].0, ranges[i].1);
      assert NamesPorts(inbound[i].ports, ranges[i].0, ranges[i].1);
    }
  }

  lemma RangeNamed(ports: string, first: nat, last: nat)
    requires 0 < first <= last < 65536 && ports == Decimal(first) + "-" + Decimal(last)
    ensures forall f: nat, l: nat :: NamesPorts(ports, f, l) <==> f == first && l == last
  {
    hide NamesPorts, PortSpan, Decimal;
    DecimalSpan(first, last);
    forall f: nat, l: nat
      ensures NamesPorts(ports, f, l) <==> f == first && l == last
    {
      SpanIsNamed(ports, f, l);
    }
  }

  // ----- counting acknowledgements -----------------------------------------------------------

  function CountAckable(msgs: seq<Msg>): nat {
    if msgs == [] then 0
    else CountAckable(msgs[..|msgs| - 1]) + if HasFlag(msgs[|msgs| - 1].flags, NLM_F_ACK) then 1 else 0
  }

  lemma CountSnoc(msgs: seq<Msg>, m: Msg)
    ensures CountAckable(msgs + [m]) == CountAckable(msgs) + if HasFlag(m.flags, NLM_F_ACK) then 1 else 0
  {
    assert (msgs + [m])[..|msgs|] == msgs;
  }

  lemma RuleAsksForAck(family: byte, seqno: u32, rule: seq<Expr>)
    ensures HasFlag(NewRule(family, seqno, rule).flags, NLM_F_ACK)
  {
  }

  lemma RuleMsgsSnoc(family: byte, rules: seq<seq<Expr>>)
    requires rules != []
    ensures var n := |rules| - 1;
      RuleMsgs(family, rules) == RuleMsgs(family, rules[..n]) + [NewRule(family, Seq(n + 4), rules[n])]
  {
    hide NewRule;
  }

  lemma {:induction false} RulesAllAck(family: byte, rules: seq<seq<Expr>>, prefix: seq<Msg>)
    ensures CountAckable(prefix + RuleMsgs(family, rules)) == CountAckable(prefix) + |rules|
    decreases |rules|
  {
    if rules == [] {
      assert prefix + RuleMsgs(family, rules) == prefix;
    } else {
      hide CountAckable, RuleMsgs, NewRule, HasFlag;
      var n := |rules| - 1;
      var before, last := RuleMsgs(family, rules[..n]), NewRule(family, Seq(n + 4), rules[n]);
      RulesAllAck(family, rules[..n], prefix);
      RuleMsgsSnoc(family, rules);
      assert prefix + (before + [last]) == prefix + before + [last];
      CountSnoc(prefix + before, last);
      RuleAsksForAck(family, Seq(n + 4), rules[n]);
    }
  }

  /** The messages that ask for an acknowledgement: all but the two batch markers. */
  lemma AckableMessages(rules: seq<Rule>, family: byte)
    ensures CountAckable(BatchMsgs(family, AllRules(rules))) == |rules| + 12
  {
    var all := AllRules(rules);
    var begin, table, chain := BatchMark(NFNL_MSG_BATCH_BEGIN, Seq(1)), NewTable(family, Seq(2)), NewChain(family, Seq(3));
    assert CountAckable([begin]) == 0 by { assert [begin][..0] == []; }
    assert [begin, table][..1] == [begin] && [begin, table, chain][..2] == [begin, table];
    RulesAllAck(family, all, [begin, table, chain]);
    var msgs := BatchMsgs(family, all);
    assert msgs[..|msgs| - 1] == [begin, table, chain] + RuleMsgs(family, all);
  }

  /** The count the installer waits for is the number of messages that ask, exactly as long as
      the batch fits the sequence space. */
  lemma AckCountExact(rules: seq<Rule>, family: byte)
    ensures Seq(|rules| + 14) - 2 == CountAckable(BatchMsgs(family, AllRules(rules))) <==> |rules| + 14 < 0x1_0000_0000
  {
    AckableMessages(rules, family);
  }

  lemma SplitFront(m: Msg, rest: seq<byte>)
    requires MsgFits(m)
    ensures Replies.SplitMessage(EncodeMsg(m) + rest) == Ok(Some((EncodeMsg(m), rest)))
  {
    hide EncodeMsg, FromLe32, Le32, MsgHead, Replies.SplitMessage;
    MsgSlices(m, rest);
    WordsReadBack(0, MsgSize(m));
    var e := EncodeMsg(m);
    assert (e + rest)[..|e|] == e;
    Replies.SplitKnown(e + rest, |e|);
  }

  lemma {:induction false} SplitsIntoMessages(msgs: seq<Msg>)
    requires MsgsFit(msgs)
    ensures Replies.Messages(EncodeMsgs(msgs)).Some?
    ensures var pieces := Replies.Messages(EncodeMsgs(msgs)).value;
      |pieces| == |msgs| && forall i :: 0 <= i < |msgs| ==> MsgFits(msgs[i]) && pieces[i] == EncodeMsg(msgs[i])
  {
    hide EncodeMsg, MsgFits, Replies.SplitMessage;
    if msgs == [] {
      assert Replies.Messages([]) == Some([]) by { NoMessages(); }
    } else {
      SplitsIntoMessages(msgs[1..]);
      SplitFront(msgs[0], EncodeMsgs(msgs[1..]));
    }
  }

  lemma NoMessages()
    ensures Replies.Messages([]) == Some([])
  {
  }

  lemma SeqnoReadBack(m: Msg)
    requires MsgFits(m)
    ensures |EncodeMsg(m)| >= 12 && FromLe32(EncodeMsg(m)[8..12]) == m.seqno
  {
    MsgSlices(m, []);
    hide EncodeMsg, MsgHead, FromLe32, FromLe16, FromBe16, Le32;
    assert EncodeMsg(m) + [] == EncodeMsg(m);
    HeadReadBack(m, EncodeMsg(m));
  }

  /** `split_message` cuts the batch into exactly its fourteen fixed messages and one per
      configured rule, nothing left over, the k-th carrying sequence number k. */
  lemma BatchSplits(rules: seq<Rule>, family: byte, k: nat)
    requires |rules| + 14 < 0x1_0000_0000 && k < |rules| + 14
    requires MsgsFit(BatchMsgs(family, AllRules(rules)))
    ensures var pieces := Replies.Messages(EncodeMsgs(BatchMsgs(family, AllRules(rules))));
      && pieces.Some? && |pieces.value| == |rules| + 14 && |pieces.value[k]| >= 12
      && FromLe32(pieces.value[k][8..12]) == k + 1
  {
    var msgs := BatchMsgs(family, AllRules(rules));
    assert msgs[k].seqno == Seq(k + 1);
    hide BatchMsgs, MsgsFit, MsgFits, EncodeMsgs, EncodeMsg, FromLe32;
    SplitsIntoMessages(msgs);
    SeqnoReadBack(msgs[k]);
  }
}
