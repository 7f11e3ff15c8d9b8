/** `build_batch`: the whole ruleset written into one buffer, message by message. */
module BatchBuilder {
  import opened Wrappers
  import opened Bytes
  import opened Netlink
  import opened NlBuf
  import opened Nft
  import opened NftBuilder
  import opened Ruleset

  /** The netlink bytes, and how many of the messages in them ask to be acknowledged. */
  datatype Batch = Batch(bytes: seq<byte>, ackable: nat)

  // ----- every message fits ------------------------------------------------------------------

  predicate ShortRule(rule: seq<Expr>) {
    |rule| <= 8 && forall i :: 0 <= i < |rule| ==> ShortOperands(rule[i])
  }

  lemma RuleFits(family: byte, seqno: u32, rule: seq<Expr>)
    requires ShortRule(rule)
    ensures MsgFits(NewRule(family, seqno, rule))
  {
    forall i | 0 <= i < |rule|
      ensures Fits(TreesOf(rule)[i]) && Size(TreesOf(rule)[i]) <= 256
    {
      TreeSmall(rule[i]);
    }
    SmallFits(TreesOf(rule), 256, 2048);
    SmallFits(NewRule(family, seqno, rule).attrs, 2052, 6156);
  }

  lemma TableFits(family: byte, seqno: u32)
    ensures MsgFits(NewTable(family, seqno))
  {
    SmallFits(NewTable(family, seqno).attrs, 20, 20);
  }

  lemma ChainFits(family: byte, seqno: u32)
    ensures MsgFits(NewChain(family, seqno))
  {
    var attrs := NewChain(family, seqno).attrs;
    SmallFits(attrs[2].kids, 8, 16);
    SmallFits(attrs, 20, 100);
  }

  lemma {:induction false} MsgsFitEach(msgs: seq<Msg>)
    requires forall i :: 0 <= i < |msgs| ==> MsgFits(msgs[i])
    ensures MsgsFit(msgs)
  {
    if msgs != [] {
      MsgsFitEach(msgs[1..]);
    }
  }

  lemma FixedRulesShort()
    ensures forall i :: 0 <= i < 10 ==> ShortRule(FixedRules()[i])
  {
  }

  lemma AllRulesShort(rules: seq<Rule>)
    ensures forall i :: 0 <= i < |AllRules(rules)| ==> ShortRule(AllRules(rules)[i])
  {
    FixedRulesShort();
    forall i | 0 <= i < |rules|
      ensures ShortRule(PortRules(rules)[i])
    {
      assert PortRules(rules)[i] == PortRule(rules[i]);
    }
  }

  lemma BatchFits(family: byte, rules: seq<seq<Expr>>)
    requires forall i :: 0 <= i < |rules| ==> ShortRule(rules[i])
    ensures MsgsFit(BatchMsgs(family, rules))
  {
    TableFits(family, Seq(2));
    ChainFits(family, Seq(3));
    forall i | 0 <= i < |rules|
      ensures MsgFits(RuleMsgs(family, rules)[i])
    {
      RuleFits(family, Seq(i + 4), rules[i]);
    }
    MsgsFitEach(BatchMsgs(family, rules));
  }

  // ----- one message at a time ---------------------------------------------------------------

  lemma ThenExpr(t: Snapshot, a: Snapshot, b: Snapshot, rule: seq<Expr>, i: nat)
    requires i < |rule| && Emits(t, a, TreesOf(rule[..i])) && Emits(a, b, [TreeOf(rule[i])])
    ensures Emits(t, b, TreesOf(rule[..i + 1]))
  {
    hide TreeOf;
    Then(t, a, b, TreesOf(rule[..i]), [TreeOf(rule[i])]);
    assert TreesOf(rule[..i]) + [TreeOf(rule[i])] == TreesOf(rule[..i + 1]);
  }

  method PutMark(buf: NlBuf, ty: u16, seqno: u32)
    requires buf.Valid()
    modifies buf
    ensures buf.Valid() && EmitsMsgs(old(buf.Now()), buf.Now(), [BatchMark(ty, seqno)])
  {
    ghost var s := buf.Now();
    var at := buf.BeginMsg(ty, NLM_F_REQUEST, seqno, 0, NFNL_SUBSYS_NFTABLES);
    EmitsNothing(buf.Now());
    MsgCloses(s, buf.Now(), BatchMark(ty, seqno));
    buf.EndMsg(at);
  }

  method PutTable(buf: NlBuf, family: byte, seqno: u32)
    requires buf.Valid()
    modifies buf
    ensures buf.Valid() && EmitsMsgs(old(buf.Now()), buf.Now(), [NewTable(family, seqno)])
  {
    ghost var s, m := buf.Now(), NewTable(family, seqno);
    var at := buf.BeginMsg(SubsysMsg(NFT_MSG_NEWTABLE), NLM_F_REQUEST + NLM_F_ACK + NLM_F_CREATE + NLM_F_EXCL,
                           seqno, family, 0);
    assert buf.Now() == MsgBegun(s, m);
    buf.PutStr(NFTA_TABLE_NAME, TABLE);
    MsgCloses(s, buf.Now(), m);
    buf.EndMsg(at);
  }

  method PutHook(buf: NlBuf, ghost t: Snapshot, ghost d: seq<Attr>)
    requires |d| == 5 && d[2] == NewChain(0, 0).attrs[2]
    requires buf.Valid() && Emits(t, buf.Now(), d[..2])
    modifies buf
    ensures buf.Valid() && Emits(t, buf.Now(), d[..3])
  {
    ghost var u := buf.Now();
    var hook := buf.BeginNested(NFTA_CHAIN_HOOK);
    ghost var v := buf.Now();
    ghost var kids := d[2].kids;
    AppendBe32(buf, NFTA_HOOK_HOOKNUM, NF_INET_LOCAL_IN, v, kids, 0);
    AppendBe32(buf, NFTA_HOOK_PRIORITY, FILTER_PRIORITY, v, kids, 1);
    assert kids[..2] == kids;
    hide Emits;
    NestedCloses(u, buf.Now(), NFTA_CHAIN_HOOK, kids);
    buf.EndNested(hook);
    Then(t, u, buf.Now(), d[..2], [d[2]]);
    assert d[..2] + [d[2]] == d[..3];
  }

  method PutChain(buf: NlBuf, family: byte, seqno: u32)
    requires buf.Valid()
    modifies buf
    ensures buf.Valid() && EmitsMsgs(old(buf.Now()), buf.Now(), [NewChain(family, seqno)])
  {
    ghost var s, m := buf.Now(), NewChain(family, seqno);
    ghost var d := m.attrs;
    var at := buf.BeginMsg(SubsysMsg(NFT_MSG_NEWCHAIN), NLM_F_REQUEST + NLM_F_ACK + NLM_F_CREATE + NLM_F_EXCL,
                           seqno, family, 0);
    ghost var t := buf.Now();
    assert t == MsgBegun(s, m);
    AppendStr(buf, NFTA_CHAIN_TABLE, TABLE, t, d, 0);
    hide Emits, EmitsMsgs, MsgBegun, CStr;
    AppendStr(buf, NFTA_CHAIN_NAME, CHAIN, t, d, 1);
    PutHook(buf, t, d);
    AppendBe32(buf, NFTA_CHAIN_POLICY, NF_DROP, t, d, 3);
    AppendStr(buf, NFTA_CHAIN_TYPE, "filter", t, d, 4);
    assert d[..5] == d;
    MsgCloses(s, buf.Now(), m);
    buf.EndMsg(at);
  }

  method AppendStr(buf: NlBuf, ty: AttrType, value: string, ghost s: Snapshot, ghost d: seq<Attr>, ghost k: nat)
    requires forall i :: 0 <= i < |value| ==> value[i] as int < 128
    requires k < |d| && d[k] == Leaf(ty, CStr(value))
    requires buf.Valid() && Emits(s, buf.Now(), d[..k])
    modifies buf
    ensures buf.Valid() && Emits(s, buf.Now(), d[..k + 1])
  {
    ghost var before := buf.Now();
    buf.PutStr(ty, value);
    Then(s, before, buf.Now(), d[..k], [d[k]]);
    assert d[..k] + [d[k]] == d[..k + 1];
  }

  /** `rule`, split at the point where its closure runs. */
  method BeginRule(buf: NlBuf, family: byte, seqno: u32) returns (msg: nat, list: nat, ghost named: Snapshot)
    requires buf.Valid()
    modifies buf
    ensures buf.Valid() && Aligned(named)
    ensures msg == |old(buf.bytes)| && list == |named.bytes|
    ensures Emits(MsgBegun(old(buf.Now()), NewRule(family, seqno, [])), named, NewRule(family, seqno, []).attrs[..2])
    ensures buf.Now() == NestedBegun(named, NFTA_RULE_EXPRESSIONS)
  {
    ghost var s, d := buf.Now(), NewRule(family, seqno, []).attrs;
    msg := buf.BeginMsg(SubsysMsg(NFT_MSG_NEWRULE), NLM_F_REQUEST + NLM_F_ACK + NLM_F_CREATE + NLM_F_APPEND,
                        seqno, family, 0);
    ghost var t := buf.Now();
    assert t == MsgBegun(s, NewRule(family, seqno, []));
    AppendStr(buf, NFTA_RULE_TABLE, TABLE, t, d, 0);
    AppendStr(buf, NFTA_RULE_CHAIN, CHAIN, t, d, 1);
    named := buf.Now();
    list := buf.BeginNested(NFTA_RULE_EXPRESSIONS);
  }

  method EndRule(buf: NlBuf, msg: nat, list: nat,
                 ghost s: Snapshot, ghost named: Snapshot, ghost family: byte, ghost seqno: u32, ghost rule: seq<Expr>)
    requires Aligned(s) && Aligned(named) && msg == |s.bytes| && list == |named.bytes|
    requires Emits(MsgBegun(s, NewRule(family, seqno, [])), named, NewRule(family, seqno, []).attrs[..2])
    requires Emits(NestedBegun(named, NFTA_RULE_EXPRESSIONS), buf.Now(), TreesOf(rule[..|rule|]))
    modifies buf
    ensures buf.Valid() && EmitsMsgs(s, buf.Now(), [NewRule(family, seqno, rule)])
  {
    ghost var m := NewRule(family, seqno, rule);
    assert rule[..|rule|] == rule;
    assert NewRule(family, seqno, []).attrs[..2] == m.attrs[..2];
    assert MsgBegun(s, NewRule(family, seqno, [])) == MsgBegun(s, m);
    NestedCloses(named, buf.Now(), NFTA_RULE_EXPRESSIONS, TreesOf(rule));
    buf.EndNested(list);
    Then(MsgBegun(s, m), named, buf.Now(), m.attrs[..2], [m.attrs[2]]);
    assert m.attrs[..2] + [m.attrs[2]] == m.attrs;
    MsgCloses(s, buf.Now(), m);
    buf.EndMsg(msg);
  }

  lemma NoExprs(t: Snapshot, rule: seq<Expr>)
    ensures Emits(t, t, TreesOf(rule[..0]))
  {
  }

  // ----- the four shapes of rule -------------------------------------------------------------

  method PutLoopback(buf: NlBuf, family: byte, seqno: u32)
    requires buf.Valid()
    modifies buf
    ensures buf.Valid() && EmitsMsgs(old(buf.Now()), buf.Now(), [NewRule(family, seqno, LOOPBACK_RULE)])
  {
    hide Emits, EmitsMsgs, NewRule, Aligned, TreesOf, TreeOf;
    ghost var s, r := buf.Now(), LOOPBACK_RULE;
    var msg, list, named := BeginRule(buf, family, seqno);
    ghost var t := buf.Now();
    NoExprs(t, r);
    MetaLoad(buf, NFT_META_IIFNAME);
    ThenExpr(t, t, buf.Now(), r, 0);
    ghost var a := buf.Now();
    CmpReg(buf, NFT_CMP_EQ, LO);
    ThenExpr(t, a, buf.Now(), r, 1);
    a := buf.Now();
    SetVerdict(buf, NF_ACCEPT);
    ThenExpr(t, a, buf.Now(), r, 2);
    EndRule(buf, msg, list, s, named, family, seqno, r);
  }

  method PutCtRule(buf: NlBuf, family: byte, seqno: u32, mask: u32, code: u32)
    requires buf.Valid()
    modifies buf
    ensures buf.Valid() && EmitsMsgs(old(buf.Now()), buf.Now(), [NewRule(family, seqno, CtRule(mask, code))])
  {
    hide Emits, EmitsMsgs, NewRule, Aligned, TreesOf, TreeOf;
    ghost var s, r := buf.Now(), CtRule(mask, code);
    var msg, list, named := BeginRule(buf, family, seqno);
    ghost var t := buf.Now();
    NoExprs(t, r);
    CtStateLoad(buf);
    ThenExpr(t, t, buf.Now(), r, 0);
    ghost var a := buf.Now();
    BitwiseMask(buf, mask);
    ThenExpr(t, a, buf.Now(), r, 1);
    a := buf.Now();
    CmpReg(buf, NFT_CMP_NEQ, Le32(0));
    ThenExpr(t, a, buf.Now(), r, 2);
    a := buf.Now();
    SetVerdict(buf, code);
    ThenExpr(t, a, buf.Now(), r, 3);
    EndRule(buf, msg, list, s, named, family, seqno, r);
  }

  /** `meta load <key>` then `cmp eq reg 1 <value>`: `nfproto_is` and `l4proto_is`. */
  method MetaIs(buf: NlBuf, key: u32, value: byte, ghost t: Snapshot, ghost r: seq<Expr>, ghost i: nat)
    requires i + 1 < |r| && r[i] == Meta(key) && r[i + 1] == Cmp(NFT_CMP_EQ, [value])
    requires buf.Valid() && Emits(t, buf.Now(), TreesOf(r[..i]))
    modifies buf
    ensures buf.Valid() && Emits(t, buf.Now(), TreesOf(r[..i + 2]))
  {
    ghost var a := buf.Now();
    MetaLoad(buf, key);
    ThenExpr(t, a, buf.Now(), r, i);
    a := buf.Now();
    CmpReg(buf, NFT_CMP_EQ, [value]);
    ThenExpr(t, a, buf.Now(), r, i + 1);
  }

  method PutIcmpRule(buf: NlBuf, family: byte, seqno: u32, nfproto: byte, protocol: byte, icmpType: byte)
    requires buf.Valid()
    modifies buf
    ensures buf.Valid()
    ensures EmitsMsgs(old(buf.Now()), buf.Now(), [NewRule(family, seqno, IcmpRule(nfproto, protocol, icmpType))])
  {
    hide Emits, EmitsMsgs, NewRule, Aligned, TreesOf, TreeOf;
    ghost var s, r := buf.Now(), IcmpRule(nfproto, protocol, icmpType);
    var msg, list, named := BeginRule(buf, family, seqno);
    ghost var t := buf.Now();
    NoExprs(t, r);
    MetaIs(buf, NFT_META_NFPROTO, nfproto, t, r, 0);
    MetaIs(buf, NFT_META_L4PROTO, protocol, t, r, 2);
    ghost var a := buf.Now();
    PayloadLoad(buf, 0, 1);
    ThenExpr(t, a, buf.Now(), r, 4);
    a := buf.Now();
    CmpReg(buf, NFT_CMP_EQ, [icmpType]);
    ThenExpr(t, a, buf.Now(), r, 5);
    a := buf.Now();
    SetVerdict(buf, NF_ACCEPT);
    ThenExpr(t, a, buf.Now(), r, 6);
    EndRule(buf, msg, list, s, named, family, seqno, r);
  }

  method PutPortRule(buf: NlBuf, family: byte, seqno: u32, rule: Rule)
    requires buf.Valid()
    modifies buf
    ensures buf.Valid() && EmitsMsgs(old(buf.Now()), buf.Now(), [NewRule(family, seqno, PortRule(rule))])
  {
    hide Emits, EmitsMsgs, NewRule, Aligned, TreesOf, TreeOf;
    ghost var s, r := buf.Now(), PortRule(rule);
    var msg, list, named := BeginRule(buf, family, seqno);
    ghost var t := buf.Now();
    NoExprs(t, r);
    MetaIs(buf, NFT_META_L4PROTO, rule.protocol, t, r, 0);
    ghost var a := buf.Now();
    PayloadLoad(buf, 2, 2);
    ThenExpr(t, a, buf.Now(), r, 2);
    a := buf.Now();
    if rule.firstPort == rule.lastPort {
      CmpReg(buf, NFT_CMP_EQ, Be16(rule.firstPort));
    } else {
      RangeReg(buf, Be16(rule.firstPort), Be16(rule.lastPort));
    }
    ThenExpr(t, a, buf.Now(), r, 3);
    a := buf.Now();
    SetVerdict(buf, NF_ACCEPT);
    ThenExpr(t, a, buf.Now(), r, 4);
    EndRule(buf, msg, list, s, named, family, seqno, r);
  }

  // ----- the batch ---------------------------------------------------------------------------

  /** The buffer holds exactly the first `k` messages of the batch. */
  ghost predicate Wrote(buf: NlBuf, msgs: seq<Msg>, k: nat)
    reads buf
  {
    k <= |msgs| && MsgsFit(msgs) && buf.Valid() && EmitsMsgs(Snapshot([], false), buf.Now(), msgs[..k])
  }

  lemma Written(a: Snapshot, b: Snapshot, msgs: seq<Msg>, k: nat)
    requires k < |msgs|
    requires EmitsMsgs(Snapshot([], false), a, msgs[..k]) && EmitsMsgs(a, b, [msgs[k]])
    ensures EmitsMsgs(Snapshot([], false), b, msgs[..k + 1])
  {
    hide EmitsMsgs, MsgsFit;
    ThenMsgs(Snapshot([], false), a, b, msgs[..k], [msgs[k]]);
    TakeOneMore(msgs, k);
  }

  function Tick(seqno: u32): u32 {
    if seqno == 0xFFFF_FFFF then seqno else seqno + 1
  }

  /** Which message of the batch carries which rule. */
  lemma RuleMsgAt(family: byte, all: seq<seq<Expr>>, i: nat)
    requires i < |all|
    ensures BatchMsgs(family, all)[i + 3] == NewRule(family, Seq(i + 4), all[i])
  {
  }

  /** Batch marker, table, chain, and the three rules before the ICMP ones. */
  method PutPreamble(buf: NlBuf, family: byte, ghost all: seq<seq<Expr>>) returns (seqno: u32)
    requires |all| >= 3 && all[0] == LOOPBACK_RULE
    requires all[1] == CtRule(CT_STATE_ESTABLISHED + CT_STATE_RELATED, NF_ACCEPT)
    requires all[2] == CtRule(CT_STATE_INVALID, NF_DROP)
    requires Wrote(buf, BatchMsgs(family, all), 0)
    modifies buf
    ensures seqno == 6 && Wrote(buf, BatchMsgs(family, all), 6)
  {
    hide EmitsMsgs, MsgsFit, NewRule, NewTable, NewChain, BatchMark, Aligned, CtRule, LOOPBACK_RULE;
    ghost var msgs := BatchMsgs(family, all);
    RuleMsgAt(family, all, 0);
    RuleMsgAt(family, all, 1);
    RuleMsgAt(family, all, 2);

    seqno := Tick(0);
    ghost var a := buf.Now();
    PutMark(buf, NFNL_MSG_BATCH_BEGIN, seqno);
    Written(a, buf.Now(), msgs, 0);

    seqno, a := Tick(seqno), buf.Now();
    PutTable(buf, family, seqno);
    Written(a, buf.Now(), msgs, 1);

    seqno, a := Tick(seqno), buf.Now();
    PutChain(buf, family, seqno);
    Written(a, buf.Now(), msgs, 2);

    seqno, a := Tick(seqno), buf.Now();
    PutLoopback(buf, family, seqno);
    Written(a, buf.Now(), msgs, 3);

    seqno, a := Tick(seqno), buf.Now();
    PutCtRule(buf, family, seqno, CT_STATE_ESTABLISHED + CT_STATE_RELATED, NF_ACCEPT);
    Written(a, buf.Now(), msgs, 4);

    seqno, a := Tick(seqno), buf.Now();
    PutCtRule(buf, family, seqno, CT_STATE_INVALID, NF_DROP);
    Written(a, buf.Now(), msgs, 5);
  }

  /** The ICMP rules and one rule per configured entry. */
  method PutRules(buf: NlBuf, family: byte, rules: seq<Rule>) returns (seqno: u32)
    requires Wrote(buf, BatchMsgs(family, AllRules(rules)), 6)
    modifies buf
    ensures seqno == Seq(|rules| + 13) && Wrote(buf, BatchMsgs(family, AllRules(rules)), |rules| + 13)
  {
    ghost var all := AllRules(rules);
    ghost var msgs := BatchMsgs(family, all);
    hide EmitsMsgs, MsgsFit, NewRule, Aligned, IcmpRule, PortRule, BatchMsgs;
    seqno := 6;
    for i := 0 to |ICMPV6_ALLOWED_TYPES|
      invariant seqno == i + 6 && Wrote(buf, msgs, i + 6)
    {
      ghost var a := buf.Now();
      seqno := Tick(seqno);
      PutIcmpRule(buf, family, seqno, NFPROTO_IPV6, IPPROTO_ICMPV6, ICMPV6_ALLOWED_TYPES[i]);
      RuleMsgAt(family, all, i + 3);
      Written(a, buf.Now(), msgs, i + 6);
    }

    ghost var b := buf.Now();
    seqno := Tick(seqno);
    PutIcmpRule(buf, family, seqno, NFPROTO_IPV4, IPPROTO_ICMP, ICMPV4_DEST_UNREACH);
    RuleMsgAt(family, all, 9);
    Written(b, buf.Now(), msgs, 12);

    for i := 0 to |rules|
      invariant seqno == Seq(i + 13) && Wrote(buf, msgs, i + 13)
    {
      ghost var a := buf.Now();
      seqno := Tick(seqno);
      PutPortRule(buf, family, seqno, rules[i]);
      RuleMsgAt(family, all, i + 10);
      Written(a, buf.Now(), msgs, i + 13);
    }
  }

  /** Builds the whole ruleset. No rule list overflows it: the result is always the encoding of
      the batch, and `ackable` is read off the last sequence number. */
  method BuildBatch(rules: seq<Rule>, family: byte) returns (r: Result<Batch, ()>)
    ensures MsgsFit(BatchMsgs(family, AllRules(rules)))
    ensures r == Ok(Batch(EncodeMsgs(BatchMsgs(family, AllRules(rules))), Seq(|rules| + 14) - 2))
  {
    ghost var msgs := BatchMsgs(family, AllRules(rules));
    AllRulesShort(rules);
    BatchFits(family, AllRules(rules));
    hide MsgsFit, BatchMark, LOOPBACK_RULE, CtRule, EmitsMsgs, EncodeMsgs;

    var buf := new NlBuf();
    assert msgs[..0] == [];
    NothingWritten();
    var seqno := PutPreamble(buf, family, AllRules(rules));
    seqno := PutRules(buf, family, rules);

    ghost var a := buf.Now();
    var last := Tick(seqno);
    PutMark(buf, NFNL_MSG_BATCH_END, last);
    Written(a, buf.Now(), msgs, |msgs| - 1);
    assert msgs[..|msgs|] == msgs;
    WholeBatch(buf.Now(), msgs);

    var bytes := buf.Finish();
    return Ok(Batch(bytes.value, last - 2));
  }

  lemma WholeBatch(s: Snapshot, msgs: seq<Msg>)
    requires MsgsFit(msgs) && EmitsMsgs(Snapshot([], false), s, msgs)
    ensures !s.overflowed && s.bytes == EncodeMsgs(msgs)
  {
    hide MsgsFit, EncodeMsgs;
    assert [] + EncodeMsgs(msgs) == EncodeMsgs(msgs);
  }

  lemma NothingWritten()
    ensures EmitsMsgs(Snapshot([], false), Snapshot([], false), [])
  {
  }
}
