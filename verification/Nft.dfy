/** nf_tables as the guest's firewall uses it: the expressions it emits, how the kernel reads
    them back out of attribute trees, and what a chain of them does to one packet. */
module Nft {
  import opened Wrappers
  import opened Bytes
  import opened Netlink

  // uapi numbers, `linux/netfilter/nf_tables.h`.
  const NFTA_LIST_ELEM: AttrType := 1
  const NFTA_EXPR_NAME: AttrType := 1
  const NFTA_EXPR_DATA: AttrType := 2
  const NFTA_DATA_VALUE: AttrType := 1
  const NFTA_DATA_VERDICT: AttrType := 2
  const NFTA_VERDICT_CODE: AttrType := 1
  const NFTA_IMMEDIATE_DREG: AttrType := 1
  const NFTA_IMMEDIATE_DATA: AttrType := 2
  const NFTA_CMP_SREG: AttrType := 1
  const NFTA_CMP_OP: AttrType := 2
  const NFTA_CMP_DATA: AttrType := 3
  const NFTA_RANGE_SREG: AttrType := 1
  const NFTA_RANGE_OP: AttrType := 2
  const NFTA_RANGE_FROM_DATA: AttrType := 3
  const NFTA_RANGE_TO_DATA: AttrType := 4
  const NFTA_PAYLOAD_DREG: AttrType := 1
  const NFTA_PAYLOAD_BASE: AttrType := 2
  const NFTA_PAYLOAD_OFFSET: AttrType := 3
  const NFTA_PAYLOAD_LEN: AttrType := 4
  const NFTA_META_DREG: AttrType := 1
  const NFTA_META_KEY: AttrType := 2
  const NFTA_CT_DREG: AttrType := 1
  const NFTA_CT_KEY: AttrType := 2
  const NFTA_BITWISE_SREG: AttrType := 1
  const NFTA_BITWISE_DREG: AttrType := 2
  const NFTA_BITWISE_LEN: AttrType := 3
  const NFTA_BITWISE_MASK: AttrType := 4
  const NFTA_BITWISE_XOR: AttrType := 5

  const NFT_REG_VERDICT: u32 := 0
  const NFT_REG_1: u32 := 1
  const NFT_CMP_EQ: u32 := 0
  const NFT_CMP_NEQ: u32 := 1
  const NFT_RANGE_EQ: u32 := 0
  const NFT_PAYLOAD_TRANSPORT_HEADER: u32 := 2
  const NFT_META_IIFNAME: u32 := 6
  const NFT_META_NFPROTO: u32 := 15
  const NFT_META_L4PROTO: u32 := 16
  const NFT_CT_STATE: u32 := 0

  const NF_DROP: u32 := 0
  const NF_ACCEPT: u32 := 1

  // ----- expressions and the trees that carry them -------------------------------------------

  datatype Expr =
    | Meta(key: u32)
    | CtState
    | Payload(offset: u32, len: u32)
    | Cmp(op: u32, value: seq<byte>)
    | Range(first: seq<byte>, last: seq<byte>)
    | Mask(mask: u32)
    | Immediate(code: u32)

  /** `NFTA_LIST_ELEM { NFTA_EXPR_NAME, NFTA_EXPR_DATA { .. } }`. */
  function Elem(name: string, data: seq<Attr>): Attr
    requires forall i :: 0 <= i < |name| ==> name[i] as int < 128
  {
    Nest(NFTA_LIST_ELEM, [Leaf(NFTA_EXPR_NAME, CStr(name)), Nest(NFTA_EXPR_DATA, data)])
  }

  function Data(ty: AttrType, value: seq<byte>): Attr {
    Nest(ty, [Leaf(NFTA_DATA_VALUE, value)])
  }

  function NameOf(e: Expr): (s: string)
    ensures forall i :: 0 <= i < |s| ==> s[i] as int < 128
    ensures |s| <= 9
  {
    match e
    case Meta(_) => "meta"
    case CtState => "ct"
    case Payload(_, _) => "payload"
    case Cmp(_, _) => "cmp"
    case Range(_, _) => "range"
    case Mask(_) => "bitwise"
    case Immediate(_) => "immediate"
  }

  function DataOf(e: Expr): (d: seq<Attr>)
    ensures |d| <= 5
  {
    match e
    case Meta(key) => [Leaf(NFTA_META_KEY, Be32(key)), Leaf(NFTA_META_DREG, Be32(NFT_REG_1))]
    case CtState => [Leaf(NFTA_CT_KEY, Be32(NFT_CT_STATE)), Leaf(NFTA_CT_DREG, Be32(NFT_REG_1))]
    case Payload(offset, len) =>
      [Leaf(NFTA_PAYLOAD_DREG, Be32(NFT_REG_1)), Leaf(NFTA_PAYLOAD_BASE, Be32(NFT_PAYLOAD_TRANSPORT_HEADER)),
       Leaf(NFTA_PAYLOAD_OFFSET, Be32(offset)), Leaf(NFTA_PAYLOAD_LEN, Be32(len))]
    case Cmp(op, value) =>
      [Leaf(NFTA_CMP_SREG, Be32(NFT_REG_1)), Leaf(NFTA_CMP_OP, Be32(op)), Data(NFTA_CMP_DATA, value)]
    case Range(first, last) =>
      [Leaf(NFTA_RANGE_SREG, Be32(NFT_REG_1)), Leaf(NFTA_RANGE_OP, Be32(NFT_RANGE_EQ)),
       Data(NFTA_RANGE_FROM_DATA, first), Data(NFTA_RANGE_TO_DATA, last)]
    case Mask(mask) =>
      [Leaf(NFTA_BITWISE_SREG, Be32(NFT_REG_1)), Leaf(NFTA_BITWISE_DREG, Be32(NFT_REG_1)),
       Leaf(NFTA_BITWISE_LEN, Be32(4)), Data(NFTA_BITWISE_MASK, Le32(mask)), Data(NFTA_BITWISE_XOR, Le32(0))]
    case Immediate(code) =>
      [Leaf(NFTA_IMMEDIATE_DREG, Be32(NFT_REG_VERDICT)),
       Nest(NFTA_IMMEDIATE_DATA, [Nest(NFTA_DATA_VERDICT, [Leaf(NFTA_VERDICT_CODE, Be32(code))])])]
  }

  function TreeOf(e: Expr): Attr {
    Elem(NameOf(e), DataOf(e))
  }

  function TreesOf(exprs: seq<Expr>): (trees: seq<Attr>)
    ensures |trees| == |exprs|
    ensures forall i :: 0 <= i < |exprs| ==> trees[i] == TreeOf(exprs[i])
  {
    seq(|exprs|, i requires 0 <= i < |exprs| => TreeOf(exprs[i]))
  }

  // ----- the kernel's reading of a tree ------------------------------------------------------

  /** `nla_parse`: the attribute filed under `ty`, the last one winning. */
  function Find(attrs: seq<Attr>, ty: AttrType): Option<Attr> {
    if attrs == [] then None
    else if attrs[|attrs| - 1].ty == ty then Some(attrs[|attrs| - 1])
    else Find(attrs[..|attrs| - 1], ty)
  }

  function PayloadOf(attrs: seq<Attr>, ty: AttrType): Option<seq<byte>> {
    match Find(attrs, ty)
    case Some(Leaf(_, payload)) => Some(payload)
    case _ => None
  }

  function Kids(attrs: seq<Attr>, ty: AttrType): Option<seq<Attr>> {
    match Find(attrs, ty)
    case Some(Nest(_, kids)) => Some(kids)
    case _ => None
  }

  function Word(attrs: seq<Attr>, ty: AttrType): Option<u32> {
    match PayloadOf(attrs, ty)
    case Some(b) => if |b| == 4 then Some(FromBe32(b)) else None
    case None => None
  }

  function Value(attrs: seq<Attr>, ty: AttrType): Option<seq<byte>> {
    match Kids(attrs, ty)
    case Some(kids) => PayloadOf(kids, NFTA_DATA_VALUE)
    case None => None
  }

  function ReadMeta(d: seq<Attr>): Option<Expr> {
    match (Word(d, NFTA_META_KEY), Word(d, NFTA_META_DREG))
    case (Some(key), Some(dreg)) => if dreg == NFT_REG_1 then Some(Meta(key)) else None
    case _ => None
  }

  function ReadCt(d: seq<Attr>): Option<Expr> {
    if Word(d, NFTA_CT_KEY) == Some(NFT_CT_STATE) && Word(d, NFTA_CT_DREG) == Some(NFT_REG_1) then Some(CtState)
    else None
  }

  function ReadPayload(d: seq<Attr>): Option<Expr> {
    if Word(d, NFTA_PAYLOAD_DREG) != Some(NFT_REG_1)
       || Word(d, NFTA_PAYLOAD_BASE) != Some(NFT_PAYLOAD_TRANSPORT_HEADER) then None
    else
      match (Word(d, NFTA_PAYLOAD_OFFSET), Word(d, NFTA_PAYLOAD_LEN))
      case (Some(offset), Some(len)) => Some(Payload(offset, len))
      case _ => None
  }

  function ReadCmp(d: seq<Attr>): Option<Expr> {
    if Word(d, NFTA_CMP_SREG) != Some(NFT_REG_1) then None
    else
      match (Word(d, NFTA_CMP_OP), Value(d, NFTA_CMP_DATA))
      case (Some(op), Some(value)) => Some(Cmp(op, value))
      case _ => None
  }

  function ReadRange(d: seq<Attr>): Option<Expr> {
    if Word(d, NFTA_RANGE_SREG) != Some(NFT_REG_1) || Word(d, NFTA_RANGE_OP) != Some(NFT_RANGE_EQ) then None
    else
      match (Value(d, NFTA_RANGE_FROM_DATA), Value(d, NFTA_RANGE_TO_DATA))
      case (Some(first), Some(last)) => Some(Range(first, last))
      case _ => None
  }

  /** Only the mask form with a zero xor operand is understood. */
  function ReadBitwise(d: seq<Attr>): Option<Expr> {
    if Word(d, NFTA_BITWISE_SREG) != Some(NFT_REG_1) || Word(d, NFTA_BITWISE_DREG) != Some(NFT_REG_1)
       || Word(d, NFTA_BITWISE_LEN) != Some(4) || Value(d, NFTA_BITWISE_XOR) != Some(Zeros(4)) then None
    else
      match Value(d, NFTA_BITWISE_MASK)
      case Some(mask) => if |mask| == 4 then Some(Mask(FromLe32(mask))) else None
      case None => None
  }

  function ReadImmediate(d: seq<Attr>): Option<Expr> {
    if Word(d, NFTA_IMMEDIATE_DREG) != Some(NFT_REG_VERDICT) then None
    else
      match Kids(d, NFTA_IMMEDIATE_DATA)
      case None => None
      case Some(data) =>
        match Kids(data, NFTA_DATA_VERDICT)
        case None => None
        case Some(verdict) =>
          match Word(verdict, NFTA_VERDICT_CODE)
          case Some(code) => Some(Immediate(code))
          case None => None
  }

  function ReadExpr(a: Attr): Option<Expr> {
    if !(a.Nest? && a.ty == NFTA_LIST_ELEM) then None
    else
      match (PayloadOf(a.kids, NFTA_EXPR_NAME), Kids(a.kids, NFTA_EXPR_DATA))
      case (Some(name), Some(d)) => ReadNamed(name, d)
      case _ => None
  }

  function ReadNamed(name: seq<byte>, d: seq<Attr>): Option<Expr> {
    if name == CStr("meta") then ReadMeta(d)
    else if name == CStr("ct") then ReadCt(d)
    else if name == CStr("payload") then ReadPayload(d)
    else if name == CStr("cmp") then ReadCmp(d)
    else if name == CStr("range") then ReadRange(d)
    else if name == CStr("bitwise") then ReadBitwise(d)
    else if name == CStr("immediate") then ReadImmediate(d)
    else None
  }

  function ReadExprs(attrs: seq<Attr>): Option<seq<Expr>> {
    if attrs == [] then Some([])
    else
      match (ReadExpr(attrs[0]), ReadExprs(attrs[1..]))
      case (Some(e), Some(rest)) => Some([e] + rest)
      case _ => None
  }

  // ----- one packet through one rule ---------------------------------------------------------

  datatype Transport = Transport(proto: byte, header: seq<byte>)

  /** What the `input` hook sees of a packet: the interface name as the fixed NUL-padded field
      the kernel compares, the conntrack state word, the network family, and the transport
      header when there is one. */
  datatype Packet = Packet(iifname: seq<byte>, ctState: u32, nfproto: byte, transport: Option<Transport>)

  datatype Step = Next(reg: seq<byte>) | Break | Verdict(code: u32)

  /** Bitwise AND of two words, by their binary digits. */
  function And(a: nat, b: nat): nat {
    if a == 0 || b == 0 then 0 else (a % 2) * (b % 2) + 2 * And(a / 2, b / 2)
  }

  lemma {:induction false} AndBelow(a: nat, b: nat)
    ensures And(a, b) <= a
  {
    if a != 0 && b != 0 {
      AndBelow(a / 2, b / 2);
    }
  }

  function EvalMeta(key: u32, p: Packet): Step {
    if key == NFT_META_IIFNAME then Next(p.iifname)
    else if key == NFT_META_NFPROTO then Next([p.nfproto])
    else if key == NFT_META_L4PROTO && p.transport.Some? then Next([p.transport.value.proto])
    else Break
  }

  function EvalPayload(offset: u32, len: u32, p: Packet): Step {
    if p.transport.Some? && offset + len <= |p.transport.value.header|
    then Next(p.transport.value.header[offset..offset + len])
    else Break
  }

  function EvalCmp(op: u32, value: seq<byte>, reg: seq<byte>): Step {
    if |reg| < |value| then Break
    else if (op == NFT_CMP_EQ && reg[..|value|] == value) || (op == NFT_CMP_NEQ && reg[..|value|] != value)
    then Next(reg)
    else Break
  }

  function EvalRange(first: seq<byte>, last: seq<byte>, reg: seq<byte>): Step {
    if |first| != |last| || |reg| < |first| then Break
    else if LexLeq(first, reg[..|first|]) && LexLeq(reg[..|last|], last) then Next(reg)
    else Break
  }

  function EvalMask(mask: u32, reg: seq<byte>): Step {
    if |reg| < 4 then Break
    else
      AndBelow(FromLe32(reg[..4]), mask);
      Next(Le32(And(FromLe32(reg[..4]), mask)))
  }

  function EvalExpr(e: Expr, reg: seq<byte>, p: Packet): Step {
    match e
    case Meta(key) => EvalMeta(key, p)
    case CtState => Next(Le32(p.ctState))
    case Payload(offset, len) => EvalPayload(offset, len, p)
    case Cmp(op, value) => EvalCmp(op, value, reg)
    case Range(first, last) => EvalRange(first, last, reg)
    case Mask(mask) => EvalMask(mask, reg)
    case Immediate(code) => Verdict(code)
  }

  function EvalRule(rule: seq<Expr>, reg: seq<byte>, p: Packet): Option<u32> {
    if rule == [] then None
    else
      match EvalExpr(rule[0], reg, p)
      case Next(reg') => EvalRule(rule[1..], reg', p)
      case Break => None
      case Verdict(code) => Some(code)
  }

  /** The first rule that reaches a verdict decides; otherwise the chain's policy does. */
  function EvalChain(rules: seq<seq<Expr>>, policy: u32, p: Packet): u32 {
    if rules == [] then policy
    else
      match EvalRule(rules[0], [], p)
      case Some(code) => code
      case None => EvalChain(rules[1..], policy, p)
  }

  // ----- reading back what was emitted -------------------------------------------------------

  lemma {:induction false} FindAt(attrs: seq<Attr>, ty: AttrType, i: nat)
    requires i < |attrs| && attrs[i].ty == ty
    requires forall j :: i < j < |attrs| ==> attrs[j].ty != ty
    ensures Find(attrs, ty) == Some(attrs[i])
  {
    if i < |attrs| - 1 {
      FindAt(attrs[..|attrs| - 1], ty, i);
    }
  }

  lemma FindOnly(a: Attr)
    ensures Find([a], a.ty) == Some(a)
  {
    FindAt([a], a.ty, 0);
  }

  lemma WordAt(attrs: seq<Attr>, i: nat, n: u32)
    requires i < |attrs| && attrs[i].Leaf? && attrs[i].payload == Be32(n)
    requires forall j :: i < j < |attrs| ==> attrs[j].ty != attrs[i].ty
    ensures Word(attrs, attrs[i].ty) == Some(n)
  {
    FindAt(attrs, attrs[i].ty, i);
    WordsReadBack(0, n);
  }

  lemma ValueAt(attrs: seq<Attr>, i: nat, value: seq<byte>)
    requires i < |attrs| && attrs[i] == Data(attrs[i].ty, value)
    requires forall j :: i < j < |attrs| ==> attrs[j].ty != attrs[i].ty
    ensures Value(attrs, attrs[i].ty) == Some(value)
  {
    FindAt(attrs, attrs[i].ty, i);
    FindOnly(Leaf(NFTA_DATA_VALUE, value));
  }

  lemma ElemRead(name: string, d: seq<Attr>)
    requires forall i :: 0 <= i < |name| ==> name[i] as int < 128
    ensures ReadExpr(Elem(name, d)) == ReadNamed(CStr(name), d)
  {
    FindAt(Elem(name, d).kids, NFTA_EXPR_NAME, 0);
    FindAt(Elem(name, d).kids, NFTA_EXPR_DATA, 1);
  }

  /** The seven names differ, so a reader that dispatches on the name cannot confuse them. */
  lemma NamesDiffer(e: Expr, d: seq<Attr>)
    ensures ReadNamed(CStr(NameOf(e)), d) ==
      match e
      case Meta(_) => ReadMeta(d)
      case CtState => ReadCt(d)
      case Payload(_, _) => ReadPayload(d)
      case Cmp(_, _) => ReadCmp(d)
      case Range(_, _) => ReadRange(d)
      case Mask(_) => ReadBitwise(d)
      case Immediate(_) => ReadImmediate(d)
  {
    assert CStr("payload")[0] == 'p' as int;
    assert CStr("bitwise")[0] == 'b' as int;
  }

  lemma ReadMetaBack(key: u32)
    ensures ReadMeta(DataOf(Meta(key))) == Some(Meta(key))
  {
    WordAt(DataOf(Meta(key)), 0, key);
    WordAt(DataOf(Meta(key)), 1, NFT_REG_1);
  }

  lemma ReadCtBack()
    ensures ReadCt(DataOf(CtState)) == Some(CtState)
  {
    WordAt(DataOf(CtState), 0, NFT_CT_STATE);
    WordAt(DataOf(CtState), 1, NFT_REG_1);
  }

  lemma ReadPayloadBack(offset: u32, len: u32)
    ensures ReadPayload(DataOf(Payload(offset, len))) == Some(Payload(offset, len))
  {
    var d := DataOf(Payload(offset, len));
    WordAt(d, 0, NFT_REG_1);
    WordAt(d, 1, NFT_PAYLOAD_TRANSPORT_HEADER);
    WordAt(d, 2, offset);
    WordAt(d, 3, len);
  }

  lemma ReadCmpBack(op: u32, value: seq<byte>)
    ensures ReadCmp(DataOf(Cmp(op, value))) == Some(Cmp(op, value))
  {
    var d := DataOf(Cmp(op, value));
    WordAt(d, 0, NFT_REG_1);
    WordAt(d, 1, op);
    ValueAt(d, 2, value);
  }

  lemma ReadRangeBack(first: seq<byte>, last: seq<byte>)
    ensures ReadRange(DataOf(Range(first, last))) == Some(Range(first, last))
  {
    var d := DataOf(Range(first, last));
    WordAt(d, 0, NFT_REG_1);
    WordAt(d, 1, NFT_RANGE_EQ);
    ValueAt(d, 2, first);
    ValueAt(d, 3, last);
  }

  lemma ReadMaskBack(mask: u32)
    ensures ReadBitwise(DataOf(Mask(mask))) == Some(Mask(mask))
  {
    var d := DataOf(Mask(mask));
    WordAt(d, 0, NFT_REG_1);
    WordAt(d, 1, NFT_REG_1);
    WordAt(d, 2, 4);
    ValueAt(d, 3, Le32(mask));
    ValueAt(d, 4, Le32(0));
    assert Le32(0) == Zeros(4);
    WordsReadBack(0, mask);
  }

  lemma ReadImmediateBack(code: u32)
    ensures ReadImmediate(DataOf(Immediate(code))) == Some(Immediate(code))
  {
    var d := DataOf(Immediate(code));
    var inner := Leaf(NFTA_VERDICT_CODE, Be32(code));
    WordAt(d, 0, NFT_REG_VERDICT);
    FindAt(d, NFTA_IMMEDIATE_DATA, 1);
    FindOnly(Nest(NFTA_DATA_VERDICT, [inner]));
    WordAt([inner], 0, code);
  }

  /** Every expression survives the trip through its attribute tree. */
  lemma ReadTree(e: Expr)
    ensures ReadExpr(TreeOf(e)) == Some(e)
  {
    ElemRead(NameOf(e), DataOf(e));
    NamesDiffer(e, DataOf(e));
    match e
    case Meta(key) => ReadMetaBack(key);
    case CtState => ReadCtBack();
    case Payload(offset, len) => ReadPayloadBack(offset, len);
    case Cmp(op, value) => ReadCmpBack(op, value);
    case Range(first, last) => ReadRangeBack(first, last);
    case Mask(mask) => ReadMaskBack(mask);
    case Immediate(code) => ReadImmediateBack(code);
  }

  lemma {:induction false} ReadTrees(exprs: seq<Expr>)
    ensures ReadExprs(TreesOf(exprs)) == Some(exprs)
  {
    if exprs != [] {
      hide ReadExpr, TreeOf;
      var e, rest := exprs[0], exprs[1..];
      ReadTree(e);
      ReadTrees(rest);
      assert TreesOf(exprs)[0] == TreeOf(e);
      assert TreesOf(exprs)[1..] == TreesOf(rest);
      assert ReadExprs(TreesOf(exprs)) == Some([e] + rest);
      assert exprs == [e] + rest;
    }
  }

  // ----- the trees fit -----------------------------------------------------------------------

  lemma {:induction false} SmallFits(attrs: seq<Attr>, bound: nat, total: nat)
    requires forall i :: 0 <= i < |attrs| ==> Fits(attrs[i]) && Size(attrs[i]) <= bound
    requires bound * |attrs| <= total
    ensures FitsAll(attrs) && SizeAll(attrs) <= total
  {
    if attrs != [] {
      SmallFits(attrs[1..], bound, bound * (|attrs| - 1));
      assert bound * (|attrs| - 1) + bound == bound * |attrs|;
    }
  }

  /** Operands no longer than the widest register field the firewall compares. */
  predicate ShortOperands(e: Expr) {
    match e
    case Cmp(_, value) => |value| <= 16
    case Range(first, last) => |first| <= 16 && |last| <= 16
    case _ => true
  }

  lemma DataSmall(ty: AttrType, value: seq<byte>)
    requires |value| <= 16
    ensures Fits(Data(ty, value)) && Size(Data(ty, value)) <= 24
  {
    One(Leaf(NFTA_DATA_VALUE, value));
  }

  lemma VerdictSmall(code: u32)
    ensures var a := DataOf(Immediate(code))[1]; Fits(a) && Size(a) <= 24
  {
    var inner := Leaf(NFTA_VERDICT_CODE, Be32(code));
    One(inner);
    One(Nest(NFTA_DATA_VERDICT, [inner]));
  }

  lemma DataOfSmall(e: Expr)
    requires ShortOperands(e)
    ensures forall i :: 0 <= i < |DataOf(e)| ==> Fits(DataOf(e)[i]) && Size(DataOf(e)[i]) <= 24
  {
    match e
    case Cmp(_, value) => DataSmall(NFTA_CMP_DATA, value);
    case Range(first, last) => DataSmall(NFTA_RANGE_FROM_DATA, first); DataSmall(NFTA_RANGE_TO_DATA, last);
    case Mask(mask) => DataSmall(NFTA_BITWISE_MASK, Le32(mask)); DataSmall(NFTA_BITWISE_XOR, Le32(0));
    case Immediate(code) => VerdictSmall(code);
    case _ =>
  }

  lemma TreeSmall(e: Expr)
    requires ShortOperands(e)
    ensures Fits(TreeOf(e)) && Size(TreeOf(e)) <= 256
  {
    DataOfSmall(e);
    SmallFits(DataOf(e), 24, 120);
    SmallFits(TreeOf(e).kids, 124, 248);
  }
}
