/** The expression builders: each writes one expression into a netlink buffer through nested
    `begin`/`end` pairs, and is proved to have written exactly that expression's tree. */
module NftBuilder {
  import opened Bytes
  import opened Netlink
  import opened NlBuf
  import opened Nft

  // ----- scalar and data attributes, as the k-th of a run of siblings ------------------------

  method AppendBe32(buf: NlBuf, ty: AttrType, value: u32, ghost s: Snapshot, ghost d: seq<Attr>, ghost k: nat)
    requires k < |d| && d[k] == Leaf(ty, Be32(value))
    requires buf.Valid() && Emits(s, buf.Now(), d[..k])
    modifies buf
    ensures buf.Valid() && Emits(s, buf.Now(), d[..k + 1])
  {
    ghost var before := buf.Now();
    buf.PutBe32(ty, value);
    Then(s, before, buf.Now(), d[..k], [d[k]]);
    assert d[..k] + [d[k]] == d[..k + 1];
  }

  method AppendData(buf: NlBuf, ty: AttrType, value: seq<byte>, ghost s: Snapshot, ghost d: seq<Attr>, ghost k: nat)
    requires k < |d| && d[k] == Data(ty, value)
    requires buf.Valid() && Emits(s, buf.Now(), d[..k])
    modifies buf
    ensures buf.Valid() && Emits(s, buf.Now(), d[..k + 1])
  {
    ghost var before := buf.Now();
    var data := buf.BeginNested(ty);
    buf.PutAttr(NFTA_DATA_VALUE, value);
    NestedCloses(before, buf.Now(), ty, [Leaf(NFTA_DATA_VALUE, value)]);
    buf.EndNested(data);
    Then(s, before, buf.Now(), d[..k], [d[k]]);
    assert d[..k] + [d[k]] == d[..k + 1];
  }

  // ----- `expr`, split at the point where its closure runs -----------------------------------

  method BeginExpr(buf: NlBuf, name: string) returns (elem: nat, body: nat, ghost named: Snapshot)
    requires buf.Valid()
    requires forall i :: 0 <= i < |name| ==> name[i] as int < 128
    modifies buf
    ensures buf.Valid() && Aligned(named)
    ensures elem == |old(buf.bytes)| && body == |named.bytes|
    ensures Emits(NestedBegun(old(buf.Now()), NFTA_LIST_ELEM), named, [Leaf(NFTA_EXPR_NAME, CStr(name))])
    ensures buf.Now() == NestedBegun(named, NFTA_EXPR_DATA)
  {
    elem := buf.BeginNested(NFTA_LIST_ELEM);
    buf.PutStr(NFTA_EXPR_NAME, name);
    named := buf.Now();
    body := buf.BeginNested(NFTA_EXPR_DATA);
  }

  method EndExpr(buf: NlBuf, elem: nat, body: nat,
                 ghost s: Snapshot, ghost named: Snapshot, ghost name: string, ghost data: seq<Attr>)
    requires forall i :: 0 <= i < |name| ==> name[i] as int < 128
    requires Aligned(s) && Aligned(named) && elem == |s.bytes| && body == |named.bytes|
    requires Emits(NestedBegun(s, NFTA_LIST_ELEM), named, [Leaf(NFTA_EXPR_NAME, CStr(name))])
    requires Emits(NestedBegun(named, NFTA_EXPR_DATA), buf.Now(), data[..|data|])
    modifies buf
    ensures buf.Valid() && Emits(s, buf.Now(), [Elem(name, data)])
  {
    assert data[..|data|] == data;
    NestedCloses(named, buf.Now(), NFTA_EXPR_DATA, data);
    buf.EndNested(body);
    var head := Leaf(NFTA_EXPR_NAME, CStr(name));
    Then(NestedBegun(s, NFTA_LIST_ELEM), named, buf.Now(), [head], [Nest(NFTA_EXPR_DATA, data)]);
    assert [head] + [Nest(NFTA_EXPR_DATA, data)] == Elem(name, data).kids;
    NestedCloses(s, buf.Now(), NFTA_LIST_ELEM, Elem(name, data).kids);
    buf.EndNested(elem);
  }

  // ----- the seven expressions ---------------------------------------------------------------

  method MetaLoad(buf: NlBuf, key: u32)
    requires buf.Valid()
    modifies buf
    ensures buf.Valid() && Emits(old(buf.Now()), buf.Now(), [TreeOf(Meta(key))])
  {
    ghost var s, d := buf.Now(), DataOf(Meta(key));
    var elem, body, named := BeginExpr(buf, "meta");
    ghost var t := buf.Now();
    AppendBe32(buf, NFTA_META_KEY, key, t, d, 0);
    AppendBe32(buf, NFTA_META_DREG, NFT_REG_1, t, d, 1);
    EndExpr(buf, elem, body, s, named, "meta", d);
  }

  method CtStateLoad(buf: NlBuf)
    requires buf.Valid()
    modifies buf
    ensures buf.Valid() && Emits(old(buf.Now()), buf.Now(), [TreeOf(CtState)])
  {
    ghost var s, d := buf.Now(), DataOf(CtState);
    var elem, body, named := BeginExpr(buf, "ct");
    ghost var t := buf.Now();
    AppendBe32(buf, NFTA_CT_KEY, NFT_CT_STATE, t, d, 0);
    AppendBe32(buf, NFTA_CT_DREG, NFT_REG_1, t, d, 1);
    EndExpr(buf, elem, body, s, named, "ct", d);
  }

  method PayloadLoad(buf: NlBuf, offset: u32, len: u32)
    requires buf.Valid()
    modifies buf
    ensures buf.Valid() && Emits(old(buf.Now()), buf.Now(), [TreeOf(Payload(offset, len))])
  {
    ghost var s, d := buf.Now(), DataOf(Payload(offset, len));
    var elem, body, named := BeginExpr(buf, "payload");
    ghost var t := buf.Now();
    AppendBe32(buf, NFTA_PAYLOAD_DREG, NFT_REG_1, t, d, 0);
    AppendBe32(buf, NFTA_PAYLOAD_BASE, NFT_PAYLOAD_TRANSPORT_HEADER, t, d, 1);
    AppendBe32(buf, NFTA_PAYLOAD_OFFSET, offset, t, d, 2);
    AppendBe32(buf, NFTA_PAYLOAD_LEN, len, t, d, 3);
    EndExpr(buf, elem, body, s, named, "payload", d);
  }

  method CmpReg(buf: NlBuf, op: u32, value: seq<byte>)
    requires buf.Valid()
    modifies buf
    ensures buf.Valid() && Emits(old(buf.Now()), buf.Now(), [TreeOf(Cmp(op, value))])
  {
    ghost var s, d := buf.Now(), DataOf(Cmp(op, value));
    var elem, body, named := BeginExpr(buf, "cmp");
    ghost var t := buf.Now();
    AppendBe32(buf, NFTA_CMP_SREG, NFT_REG_1, t, d, 0);
    AppendBe32(buf, NFTA_CMP_OP, op, t, d, 1);
    AppendData(buf, NFTA_CMP_DATA, value, t, d, 2);
    EndExpr(buf, elem, body, s, named, "cmp", d);
  }

  method RangeReg(buf: NlBuf, first: seq<byte>, last: seq<byte>)
    requires buf.Valid()
    modifies buf
    ensures buf.Valid() && Emits(old(buf.Now()), buf.Now(), [TreeOf(Range(first, last))])
  {
    ghost var s, d := buf.Now(), DataOf(Range(first, last));
    var elem, body, named := BeginExpr(buf, "range");
    ghost var t := buf.Now();
    AppendBe32(buf, NFTA_RANGE_SREG, NFT_REG_1, t, d, 0);
    AppendBe32(buf, NFTA_RANGE_OP, NFT_RANGE_EQ, t, d, 1);
    AppendData(buf, NFTA_RANGE_FROM_DATA, first, t, d, 2);
    AppendData(buf, NFTA_RANGE_TO_DATA, last, t, d, 3);
    EndExpr(buf, elem, body, s, named, "range", d);
  }

  method BitwiseMask(buf: NlBuf, mask: u32)
    requires buf.Valid()
    modifies buf
    ensures buf.Valid() && Emits(old(buf.Now()), buf.Now(), [TreeOf(Mask(mask))])
  {
    ghost var s, d := buf.Now(), DataOf(Mask(mask));
    var elem, body, named := BeginExpr(buf, "bitwise");
    ghost var t := buf.Now();
    AppendBe32(buf, NFTA_BITWISE_SREG, NFT_REG_1, t, d, 0);
    AppendBe32(buf, NFTA_BITWISE_DREG, NFT_REG_1, t, d, 1);
    AppendBe32(buf, NFTA_BITWISE_LEN, 4, t, d, 2);
    AppendData(buf, NFTA_BITWISE_MASK, Le32(mask), t, d, 3);
    AppendData(buf, NFTA_BITWISE_XOR, Le32(0), t, d, 4);
    EndExpr(buf, elem, body, s, named, "bitwise", d);
  }

  method AppendVerdict(buf: NlBuf, code: u32, ghost t: Snapshot, ghost d: seq<Attr>)
    requires d == DataOf(Immediate(code))
    requires buf.Valid() && Emits(t, buf.Now(), d[..1])
    modifies buf
    ensures buf.Valid() && Emits(t, buf.Now(), d[..2])
  {
    ghost var atData := buf.Now();
    var data := buf.BeginNested(NFTA_IMMEDIATE_DATA);
    ghost var atVerdict := buf.Now();
    var v := buf.BeginNested(NFTA_DATA_VERDICT);
    buf.PutBe32(NFTA_VERDICT_CODE, code);
    ghost var inner := [Leaf(NFTA_VERDICT_CODE, Be32(code))];
    hide Emits;
    NestedCloses(atVerdict, buf.Now(), NFTA_DATA_VERDICT, inner);
    buf.EndNested(v);
    NestedCloses(atData, buf.Now(), NFTA_IMMEDIATE_DATA, [Nest(NFTA_DATA_VERDICT, inner)]);
    buf.EndNested(data);
    Then(t, atData, buf.Now(), d[..1], [d[1]]);
    assert d[..1] + [d[1]] == d[..2];
  }

  method SetVerdict(buf: NlBuf, code: u32)
    requires buf.Valid()
    modifies buf
    ensures buf.Valid() && Emits(old(buf.Now()), buf.Now(), [TreeOf(Immediate(code))])
  {
    ghost var s, d := buf.Now(), DataOf(Immediate(code));
    var elem, body, named := BeginExpr(buf, "immediate");
    ghost var t := buf.Now();
    AppendBe32(buf, NFTA_IMMEDIATE_DREG, NFT_REG_VERDICT, t, d, 0);
    AppendVerdict(buf, code, t, d);
    EndExpr(buf, elem, body, s, named, "immediate", d);
  }
}
