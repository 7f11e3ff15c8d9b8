/** The batch: its messages, the transaction the kernel makes of them, and the builder that
    writes them into one buffer. */
module Ruleset {
  import opened Wrappers
  import opened Bytes
  import opened Netlink
  import opened Nft

  const NLM_F_REQUEST: u16 := 0x0001
  const NLM_F_ACK: u16 := 0x0004
  const NLM_F_EXCL: u16 := 0x0200
  const NLM_F_CREATE: u16 := 0x0400
  const NLM_F_APPEND: u16 := 0x0800

  const NFNL_SUBSYS_NFTABLES: u16 := 10
  const NFNL_MSG_BATCH_BEGIN: u16 := 16
  const NFNL_MSG_BATCH_END: u16 := 17
  const NFT_MSG_NEWTABLE: u16 := 0
  const NFT_MSG_NEWCHAIN: u16 := 3
  const NFT_MSG_NEWRULE: u16 := 6

  const NFTA_TABLE_NAME: AttrType := 1
  const NFTA_CHAIN_TABLE: AttrType := 1
  const NFTA_CHAIN_NAME: AttrType := 3
  const NFTA_CHAIN_HOOK: AttrType := 4
  const NFTA_CHAIN_POLICY: AttrType := 5
  const NFTA_CHAIN_TYPE: AttrType := 7
  const NFTA_HOOK_HOOKNUM: AttrType := 1
  const NFTA_HOOK_PRIORITY: AttrType := 2
  const NFTA_RULE_TABLE: AttrType := 1
  const NFTA_RULE_CHAIN: AttrType := 2
  const NFTA_RULE_EXPRESSIONS: AttrType := 4

  const NFPROTO_INET: byte := 1
  const NFPROTO_IPV4: byte := 2
  const NFPROTO_IPV6: byte := 10
  const NF_INET_LOCAL_IN: u32 := 1
  const FILTER_PRIORITY: u32 := 0

  const CT_STATE_INVALID: u32 := 0x01
  const CT_STATE_ESTABLISHED: u32 := 0x02
  const CT_STATE_RELATED: u32 := 0x04

  const IPPROTO_ICMP: byte := 1
  const IPPROTO_TCP: byte := 6
  const IPPROTO_UDP: byte := 17
  const IPPROTO_ICMPV6: byte := 58

  const TABLE := "cargo-unikernel"
  const CHAIN := "input"
  const LO: seq<byte> := ['l' as int, 'o' as int] + Zeros(14)
  const ICMPV6_ALLOWED_TYPES: seq<byte> := [2, 130, 133, 134, 135, 136]
  const ICMPV4_DEST_UNREACH: byte := 3

  /** One parsed inbound entry: a protocol and an inclusive port range. */
  datatype Rule = Rule(protocol: byte, firstPort: u16, lastPort: u16)

  function SubsysMsg(msg: u16): u16
    requires msg < 256
  {
    NFNL_SUBSYS_NFTABLES * 256 + msg
  }

  function HasFlag(flags: u16, flag: u16): bool
    requires flag > 0
  {
    flags / flag % 2 == 1
  }

  // ----- the rules as expressions ------------------------------------------------------------

  const LOOPBACK_RULE: seq<Expr> := [Meta(NFT_META_IIFNAME), Cmp(NFT_CMP_EQ, LO), Immediate(NF_ACCEPT)]

  function CtRule(mask: u32, code: u32): seq<Expr> {
    [CtState, Mask(mask), Cmp(NFT_CMP_NEQ, Le32(0)), Immediate(code)]
  }

  function IcmpRule(family: byte, protocol: byte, icmpType: byte): seq<Expr> {
    [Meta(NFT_META_NFPROTO), Cmp(NFT_CMP_EQ, [family]), Meta(NFT_META_L4PROTO), Cmp(NFT_CMP_EQ, [protocol]),
     Payload(0, 1), Cmp(NFT_CMP_EQ, [icmpType]), Immediate(NF_ACCEPT)]
  }

  function PortTest(r: Rule): Expr {
    if r.firstPort == r.lastPort then Cmp(NFT_CMP_EQ, Be16(r.firstPort))
    else Range(Be16(r.firstPort), Be16(r.lastPort))
  }

  function PortRule(r: Rule): seq<Expr> {
    [Meta(NFT_META_L4PROTO), Cmp(NFT_CMP_EQ, [r.protocol]), Payload(2, 2), PortTest(r), Immediate(NF_ACCEPT)]
  }

  function FixedRules(): (rules: seq<seq<Expr>>)
    ensures |rules| == 10
  {
    [LOOPBACK_RULE, CtRule(CT_STATE_ESTABLISHED + CT_STATE_RELATED, NF_ACCEPT), CtRule(CT_STATE_INVALID, NF_DROP)]
    + seq(6, i requires 0 <= i < 6 => IcmpRule(NFPROTO_IPV6, IPPROTO_ICMPV6, ICMPV6_ALLOWED_TYPES[i]))
    + [IcmpRule(NFPROTO_IPV4, IPPROTO_ICMP, ICMPV4_DEST_UNREACH)]
  }

  function PortRules(rules: seq<Rule>): (r: seq<seq<Expr>>)
    ensures |r| == |rules|
  {
    seq(|rules|, i requires 0 <= i < |rules| => PortRule(rules[i]))
  }

  function AllRules(rules: seq<Rule>): seq<seq<Expr>> {
    FixedRules() + PortRules(rules)
  }

  // ----- the messages ------------------------------------------------------------------------

  function BatchMark(ty: u16, seqno: u32): Msg {
    Msg(ty, NLM_F_REQUEST, seqno, 0, NFNL_SUBSYS_NFTABLES, [])
  }

  function NewTable(family: byte, seqno: u32): Msg {
    Msg(SubsysMsg(NFT_MSG_NEWTABLE), NLM_F_REQUEST + NLM_F_ACK + NLM_F_CREATE + NLM_F_EXCL, seqno, family, 0,
        [Leaf(NFTA_TABLE_NAME, CStr(TABLE))])
  }

  function NewChain(family: byte, seqno: u32): Msg {
    Msg(SubsysMsg(NFT_MSG_NEWCHAIN), NLM_F_REQUEST + NLM_F_ACK + NLM_F_CREATE + NLM_F_EXCL, seqno, family, 0,
        [Leaf(NFTA_CHAIN_TABLE, CStr(TABLE)), Leaf(NFTA_CHAIN_NAME, CStr(CHAIN)),
         Nest(NFTA_CHAIN_HOOK,
              [Leaf(NFTA_HOOK_HOOKNUM, Be32(NF_INET_LOCAL_IN)), Leaf(NFTA_HOOK_PRIORITY, Be32(FILTER_PRIORITY))]),
         Leaf(NFTA_CHAIN_POLICY, Be32(NF_DROP)), Leaf(NFTA_CHAIN_TYPE, CStr("filter"))])
  }

  function NewRule(family: byte, seqno: u32, rule: seq<Expr>): Msg {
    Msg(SubsysMsg(NFT_MSG_NEWRULE), NLM_F_REQUEST + NLM_F_ACK + NLM_F_CREATE + NLM_F_APPEND, seqno, family, 0,
        [Leaf(NFTA_RULE_TABLE, CStr(TABLE)), Leaf(NFTA_RULE_CHAIN, CStr(CHAIN)),
         Nest(NFTA_RULE_EXPRESSIONS, TreesOf(rule))])
  }

  /** The sequence number of the k-th message, counting from one and saturating. */
  function Seq(k: nat): u32 {
    if k < 0x1_0000_0000 then k else 0xFFFF_FFFF
  }

  function RuleMsgs(family: byte, rules: seq<seq<Expr>>): (msgs: seq<Msg>)
    ensures |msgs| == |rules|
  {
    seq(|rules|, i requires 0 <= i < |rules| => NewRule(family, Seq(i + 4), rules[i]))
  }

  function BatchMsgs(family: byte, rules: seq<seq<Expr>>): (msgs: seq<Msg>)
    ensures |msgs| == |rules| + 4
  {
    [BatchMark(NFNL_MSG_BATCH_BEGIN, Seq(1)), NewTable(family, Seq(2)), NewChain(family, Seq(3))]
    + RuleMsgs(family, rules)
    + [BatchMark(NFNL_MSG_BATCH_END, Seq(|rules| + 4))]
  }

  // ----- the kernel's transaction ------------------------------------------------------------

  datatype Chain = Chain(name: seq<byte>, hook: u32, policy: u32, rules: seq<seq<Expr>>)

  /** What a batch has set up so far; `Rejected` once any message in it is refused. */
  datatype Tables =
    | Empty
    | Table(family: byte, name: seq<byte>)
    | Live(family: byte, name: seq<byte>, chain: Chain)
    | Rejected

  function ApplyTable(t: Tables, m: Msg): Tables {
    match PayloadOf(m.attrs, NFTA_TABLE_NAME)
    case Some(name) => if t.Empty? then Table(m.family, name) else Rejected
    case None => Rejected
  }

  function ApplyChain(t: Tables, m: Msg): Tables {
    if !(t.Table? && t.family == m.family && PayloadOf(m.attrs, NFTA_CHAIN_TABLE) == Some(t.name)
         && PayloadOf(m.attrs, NFTA_CHAIN_TYPE) == Some(CStr("filter"))) then Rejected
    else
      match (PayloadOf(m.attrs, NFTA_CHAIN_NAME), Kids(m.attrs, NFTA_CHAIN_HOOK), Word(m.attrs, NFTA_CHAIN_POLICY))
      case (Some(name), Some(hook), Some(policy)) =>
        (match (Word(hook, NFTA_HOOK_HOOKNUM), Word(hook, NFTA_HOOK_PRIORITY))
         case (Some(num), Some(_)) => Live(t.family, t.name, Chain(name, num, policy, []))
         case _ => Rejected)
      case _ => Rejected
  }

  /** A new rule goes to the end of the chain only with `NLM_F_APPEND`; without it, to the head. */
  function ApplyRule(t: Tables, m: Msg): Tables {
    if !(t.Live? && t.family == m.family && PayloadOf(m.attrs, NFTA_RULE_TABLE) == Some(t.name)
         && PayloadOf(m.attrs, NFTA_RULE_CHAIN) == Some(t.chain.name)) then Rejected
    else
      match Kids(m.attrs, NFTA_RULE_EXPRESSIONS)
      case None => Rejected
      case Some(trees) =>
        match ReadExprs(trees)
        case None => Rejected
        case Some(rule) =>
          var rules := if HasFlag(m.flags, NLM_F_APPEND) then t.chain.rules + [rule] else [rule] + t.chain.rules;
          t.(chain := t.chain.(rules := rules))
  }

  function ApplyMsg(t: Tables, m: Msg): Tables {
    if !HasFlag(m.flags, NLM_F_CREATE) then Rejected
    else if m.ty == SubsysMsg(NFT_MSG_NEWTABLE) then ApplyTable(t, m)
    else if m.ty == SubsysMsg(NFT_MSG_NEWCHAIN) then ApplyChain(t, m)
    else if m.ty == SubsysMsg(NFT_MSG_NEWRULE) then ApplyRule(t, m)
    else Rejected
  }

  function ApplyAll(t: Tables, msgs: seq<Msg>): Tables
    decreases |msgs|
  {
    if msgs == [] then t else ApplyAll(ApplyMsg(t, msgs[0]), msgs[1..])
  }

  predicate IsMark(m: Msg, ty: u16) {
    m.ty == ty && m.resId == NFNL_SUBSYS_NFTABLES
  }

  /** A batch commits whole, between its two markers, or not at all. */
  function Commit(msgs: seq<Msg>): Tables {
    if |msgs| < 2 || !IsMark(msgs[0], NFNL_MSG_BATCH_BEGIN) || !IsMark(msgs[|msgs| - 1], NFNL_MSG_BATCH_END)
    then Rejected
    else ApplyAll(Empty, msgs[1..|msgs| - 1])
  }

  /** Whether a table of this family is consulted for a packet of this network protocol. */
  predicate Covers(family: byte, nfproto: byte) {
    family == nfproto || (family == NFPROTO_INET && (nfproto == NFPROTO_IPV4 || nfproto == NFPROTO_IPV6))
  }

  /** What happens to an inbound packet: without a table hooked on `input` for its family,
      nothing filters it. */
  function Inbound(t: Tables, p: Packet): u32 {
    if t.Live? && t.chain.hook == NF_INET_LOCAL_IN && Covers(t.family, p.nfproto)
    then EvalChain(t.chain.rules, t.chain.policy, p)
    else NF_ACCEPT
  }

  // ----- committing the batch ----------------------------------------------------------------

  lemma ApplyNewTable(family: byte, seqno: u32)
    ensures ApplyMsg(Empty, NewTable(family, seqno)) == Table(family, CStr(TABLE))
  {
    FindAt(NewTable(family, seqno).attrs, NFTA_TABLE_NAME, 0);
  }

  const EMPTY_CHAIN := Chain(CStr(CHAIN), NF_INET_LOCAL_IN, NF_DROP, [])

  lemma ApplyNewChain(family: byte, seqno: u32)
    ensures ApplyMsg(Table(family, CStr(TABLE)), NewChain(family, seqno)) == Live(family, CStr(TABLE), EMPTY_CHAIN)
  {
    var attrs := NewChain(family, seqno).attrs;
    FindAt(attrs, NFTA_CHAIN_TABLE, 0);
    FindAt(attrs, NFTA_CHAIN_NAME, 1);
    FindAt(attrs, NFTA_CHAIN_HOOK, 2);
    WordAt(attrs[2].kids, 0, NF_INET_LOCAL_IN);
    WordAt(attrs[2].kids, 1, FILTER_PRIORITY);
    WordAt(attrs, 3, NF_DROP);
    FindAt(attrs, NFTA_CHAIN_TYPE, 4);
  }

  lemma RuleAttrs(m: Msg, rule: seq<Expr>)
    requires |m.attrs| == 3
    requires m.attrs[0] == Leaf(NFTA_RULE_TABLE, CStr(TABLE)) && m.attrs[1] == Leaf(NFTA_RULE_CHAIN, CStr(CHAIN))
    requires m.attrs[2] == Nest(NFTA_RULE_EXPRESSIONS, TreesOf(rule))
    ensures PayloadOf(m.attrs, NFTA_RULE_TABLE) == Some(CStr(TABLE))
    ensures PayloadOf(m.attrs, NFTA_RULE_CHAIN) == Some(CStr(CHAIN))
    ensures Kids(m.attrs, NFTA_RULE_EXPRESSIONS) == Some(TreesOf(rule))
  {
    FindAt(m.attrs, NFTA_RULE_TABLE, 0);
    FindAt(m.attrs, NFTA_RULE_CHAIN, 1);
    FindAt(m.attrs, NFTA_RULE_EXPRESSIONS, 2);
  }

  lemma ApplyNewRule(family: byte, seqno: u32, rule: seq<Expr>, c: Chain)
    requires c.name == CStr(CHAIN)
    ensures ApplyMsg(Live(family, CStr(TABLE), c), NewRule(family, seqno, rule))
         == Live(family, CStr(TABLE), c.(rules := c.rules + [rule]))
  {
    hide ReadExprs, TreesOf, PayloadOf, Kids, CStr;
    var m := NewRule(family, seqno, rule);
    RuleAttrs(m, rule);
    ReadTrees(rule);
    assert ApplyMsg(Live(family, CStr(TABLE), c), m) == ApplyRule(Live(family, CStr(TABLE), c), m);
  }

  lemma {:induction false} ApplyAllSnoc(t: Tables, msgs: seq<Msg>, m: Msg)
    ensures ApplyAll(t, msgs + [m]) == ApplyMsg(ApplyAll(t, msgs), m)
    decreases |msgs|
  {
    hide ApplyMsg;
    if msgs == [] {
      assert [m][1..] == [];
    } else {
      assert (msgs + [m])[1..] == msgs[1..] + [m];
      ApplyAllSnoc(ApplyMsg(t, msgs[0]), msgs[1..], m);
    }
  }

  lemma RuleMsgsSnoc(family: byte, rules: seq<seq<Expr>>, rule: seq<Expr>)
    ensures RuleMsgs(family, rules + [rule]) == RuleMsgs(family, rules) + [NewRule(family, Seq(|rules| + 4), rule)]
  {
  }

  lemma {:induction false} ApplyRules(family: byte, rules: seq<seq<Expr>>)
    ensures ApplyAll(Live(family, CStr(TABLE), EMPTY_CHAIN), RuleMsgs(family, rules))
         == Live(family, CStr(TABLE), EMPTY_CHAIN.(rules := rules))
  {
    hide ApplyMsg, NewRule, CStr;
    if rules == [] {
      assert EMPTY_CHAIN.(rules := []) == EMPTY_CHAIN;
    } else {
      hide ApplyAll;
      var n := |rules| - 1;
      ApplyRules(family, rules[..n]);
      RuleMsgsSnoc(family, rules[..n], rules[n]);
      assert rules[..n] + [rules[n]] == rules;
      ApplyAllSnoc(Live(family, CStr(TABLE), EMPTY_CHAIN), RuleMsgs(family, rules[..n]), NewRule(family, Seq(n + 4), rules[n]));
      ApplyNewRule(family, Seq(n + 4), rules[n], EMPTY_CHAIN.(rules := rules[..n]));
    }
  }

  lemma ApplyTwo(t: Tables, a: Msg, b: Msg, rest: seq<Msg>)
    ensures ApplyAll(t, [a, b] + rest) == ApplyAll(ApplyMsg(ApplyMsg(t, a), b), rest)
  {
    hide ApplyMsg;
    var msgs := [a, b] + rest;
    assert msgs[1..] == [b] + rest && msgs[1..][1..] == rest;
  }

  /** Committing the batch leaves one filter chain on `input`, default drop, with the given
      rules in the given order. */
  lemma CommitBatch(family: byte, rules: seq<seq<Expr>>)
    ensures Commit(BatchMsgs(family, rules)) == Live(family, CStr(TABLE), EMPTY_CHAIN.(rules := rules))
  {
    var msgs := BatchMsgs(family, rules);
    var begin, end := BatchMark(NFNL_MSG_BATCH_BEGIN, Seq(1)), BatchMark(NFNL_MSG_BATCH_END, Seq(|rules| + 4));
    assert IsMark(begin, NFNL_MSG_BATCH_BEGIN) && IsMark(end, NFNL_MSG_BATCH_END);
    hide ApplyMsg, ApplyAll, RuleMsgs, NewTable, NewChain, BatchMark, CStr, IsMark;
    var table, chain := NewTable(family, Seq(2)), NewChain(family, Seq(3));
    assert msgs[1..|msgs| - 1] == [table, chain] + RuleMsgs(family, rules);
    ApplyNewTable(family, Seq(2));
    ApplyNewChain(family, Seq(3));
    ApplyRules(family, rules);
    ApplyTwo(Empty, table, chain, RuleMsgs(family, rules));
  }
}
