/** Netlink framing: attribute trees and messages, their wire form, and an independent decoder
    that walks the bytes by the length fields alone (RFC 3549, section 2.3.2; attributes are
    the kernel's `struct nlattr`). */
module Netlink {
  import opened Wrappers
  import opened Bytes

  /** An attribute type proper: the two top bits of the field on the wire are flags. */
  type AttrType = n: int | 0 <= n < 0x4000

  const NLA_F_NESTED: u16 := 0x8000
  const NLA_HDR_LEN: nat := 4
  const MSG_FIXED_LEN: nat := 20

  datatype Attr =
    | Leaf(ty: AttrType, payload: seq<byte>)
    | Nest(ty: AttrType, kids: seq<Attr>)

  /** One nfnetlink message: `struct nlmsghdr`, `struct nfgenmsg`, then attributes. */
  datatype Msg = Msg(ty: u16, flags: u16, seqno: u32, family: byte, resId: u16, attrs: seq<Attr>)

  // ----- sizes and encoding ------------------------------------------------------------------

  /** Bytes an attribute occupies, padding included. */
  function Size(a: Attr): (n: nat)
    ensures n % 4 == 0
    decreases a, 1
  {
    match a
    case Leaf(_, payload) => Align4(NLA_HDR_LEN + |payload|)
    case Nest(_, kids) => NLA_HDR_LEN + SizeAll(kids)
  }

  function SizeAll(attrs: seq<Attr>): (n: nat)
    ensures n % 4 == 0
    decreases attrs, 0
  {
    if attrs == [] then 0 else Size(attrs[0]) + SizeAll(attrs[1..])
  }

  /** Every length in the tree is representable in its 16-bit field. */
  predicate Fits(a: Attr)
    decreases a, 1
  {
    match a
    case Leaf(_, payload) => NLA_HDR_LEN + |payload| < 0x1_0000
    case Nest(_, kids) => FitsAll(kids) && NLA_HDR_LEN + SizeAll(kids) < 0x1_0000
  }

  predicate FitsAll(attrs: seq<Attr>)
    decreases attrs, 0
  {
    attrs == [] || (Fits(attrs[0]) && FitsAll(attrs[1..]))
  }

  function PadTo4(b: seq<byte>): (p: seq<byte>)
    ensures |p| == Align4(|b|)
  {
    b + Zeros(Align4(|b|) - |b|)
  }

  function Encode(a: Attr): (b: seq<byte>)
    requires Fits(a)
    ensures |b| == Size(a)
    decreases a, 1
  {
    match a
    case Leaf(ty, payload) => PadTo4(Le16(NLA_HDR_LEN + |payload|) + Le16(ty) + payload)
    case Nest(ty, kids) => Le16(NLA_HDR_LEN + SizeAll(kids)) + Le16(ty + NLA_F_NESTED) + EncodeAll(kids)
  }

  function EncodeAll(attrs: seq<Attr>): (b: seq<byte>)
    requires FitsAll(attrs)
    ensures |b| == SizeAll(attrs)
    decreases attrs, 0
  {
    if attrs == [] then [] else Encode(attrs[0]) + EncodeAll(attrs[1..])
  }

  function MsgSize(m: Msg): (n: nat)
    ensures n % 4 == 0
  {
    MSG_FIXED_LEN + SizeAll(m.attrs)
  }

  predicate MsgFits(m: Msg) {
    FitsAll(m.attrs) && MsgSize(m) < 0x1_0000_0000
  }

  /** Everything of a message after its length word and before its attributes. */
  function MsgHead(m: Msg): (b: seq<byte>)
    ensures |b| == MSG_FIXED_LEN - 4
  {
    Le16(m.ty) + Le16(m.flags) + Le32(m.seqno) + Le32(0) + [m.family, 0] + Be16(m.resId)
  }

  function EncodeMsg(m: Msg): (b: seq<byte>)
    requires MsgFits(m)
    ensures |b| == MsgSize(m)
  {
    Le32(MsgSize(m)) + MsgHead(m) + EncodeAll(m.attrs)
  }

  predicate MsgsFit(msgs: seq<Msg>) {
    msgs == [] || (MsgFits(msgs[0]) && MsgsFit(msgs[1..]))
  }

  function EncodeMsgs(msgs: seq<Msg>): seq<byte>
    requires MsgsFit(msgs)
  {
    if msgs == [] then [] else EncodeMsg(msgs[0]) + EncodeMsgs(msgs[1..])
  }

  // ----- the decoder -------------------------------------------------------------------------

  function DecodeAttrs(b: seq<byte>): Option<seq<Attr>>
    decreases |b|
  {
    if |b| == 0 then Some([])
    else if |b| < NLA_HDR_LEN then None
    else
      var len, raw := FromLe16(b[..2]), FromLe16(b[2..4]);
      if len < NLA_HDR_LEN || len > |b| then None
      else
        var next := if Align4(len) <= |b| then Align4(len) else |b|;
        var rest := DecodeAttrs(b[next..]);
        if rest.None? then None
        else if raw >= NLA_F_NESTED then
          var kids := DecodeAttrs(b[NLA_HDR_LEN..len]);
          if kids.None? then None else Some([Nest(raw % 0x4000, kids.value)] + rest.value)
        else
          Some([Leaf(raw % 0x4000, b[NLA_HDR_LEN..len])] + rest.value)
  }

  /** One message off the front of a stream, with the number of bytes it occupied. */
  function DecodeMsg(b: seq<byte>): (r: Option<(Msg, nat)>)
    ensures r.Some? ==> MSG_FIXED_LEN <= r.value.1 <= |b|
  {
    if |b| < MSG_FIXED_LEN then None
    else
      var len := FromLe32(b[..4]);
      if len < MSG_FIXED_LEN || len > |b| then None
      else
        var attrs := DecodeAttrs(b[MSG_FIXED_LEN..len]);
        if attrs.None? then None
        else
          var m := Msg(FromLe16(b[4..6]), FromLe16(b[6..8]), FromLe32(b[8..12]),
                       b[16], FromBe16(b[18..20]), attrs.value);
          var next := if Align4(len) <= |b| then Align4(len) else |b|;
          Some((m, next))
  }

  function DecodeMsgs(b: seq<byte>): Option<seq<Msg>>
    decreases |b|
  {
    if b == [] then Some([])
    else
      var first := DecodeMsg(b);
      if first.None? then None
      else
        var rest := DecodeMsgs(b[first.value.1..]);
        if rest.None? then None else Some([first.value.0] + rest.value)
  }

  // ----- decoding undoes encoding ------------------------------------------------------------

  /** Where the parts of one framed attribute lie in a longer stream. */
  lemma FrontSlices(len: u16, raw: u16, body: seq<byte>, pad: seq<byte>, more: seq<byte>)
    requires |body| == len - NLA_HDR_LEN
    ensures var b := Le16(len) + Le16(raw) + body + pad + more;
      && b[..2] == Le16(len) && b[2..4] == Le16(raw)
      && b[NLA_HDR_LEN..len] == body && b[len + |pad|..] == more
  {
    var b := Le16(len) + Le16(raw) + body + pad + more;
    assert b == Le16(len) + (Le16(raw) + body + pad + more);
    assert b == (Le16(len) + Le16(raw)) + (body + pad + more);
    assert b == (Le16(len) + Le16(raw) + body) + (pad + more);
  }

  /** One unfolding of the decoder on a stream whose first attribute is known part by part. */
  lemma DecodeStep(b: seq<byte>, len: u16, raw: u16, body: seq<byte>, more: seq<byte>)
    requires NLA_HDR_LEN <= len && Align4(len) <= |b|
    requires b[..2] == Le16(len) && b[2..4] == Le16(raw)
    requires b[NLA_HDR_LEN..len] == body && b[Align4(len)..] == more
    requires DecodeAttrs(more).Some?
    requires raw >= NLA_F_NESTED ==> DecodeAttrs(body).Some?
    ensures DecodeAttrs(b) == Some(
      [if raw >= NLA_F_NESTED then Nest(raw % 0x4000, DecodeAttrs(body).value) else Leaf(raw % 0x4000, body)]
      + DecodeAttrs(more).value)
  {
    WordsReadBack(len, 0);
    WordsReadBack(raw, 0);
  }

  /** The decoder's first step on a stream that starts with one framed attribute. */
  lemma FramedFront(raw: u16, body: seq<byte>, more: seq<byte>)
    requires NLA_HDR_LEN + |body| < 0x1_0000
    requires DecodeAttrs(more).Some?
    requires raw >= NLA_F_NESTED ==> DecodeAttrs(body).Some?
    ensures var len := NLA_HDR_LEN + |body|;
      DecodeAttrs(Le16(len) + Le16(raw) + body + Zeros(Align4(len) - len) + more) == Some(
        [if raw >= NLA_F_NESTED then Nest(raw % 0x4000, DecodeAttrs(body).value) else Leaf(raw % 0x4000, body)]
        + DecodeAttrs(more).value)
  {
    hide DecodeAttrs;
    var len := NLA_HDR_LEN + |body|;
    FrontSlices(len, raw, body, Zeros(Align4(len) - len), more);
    DecodeStep(Le16(len) + Le16(raw) + body + Zeros(Align4(len) - len) + more, len, raw, body, more);
  }

  lemma LeafFront(ty: AttrType, payload: seq<byte>, more: seq<byte>)
    requires Fits(Leaf(ty, payload))
    requires DecodeAttrs(more).Some?
    ensures DecodeAttrs(Encode(Leaf(ty, payload)) + more) == Some([Leaf(ty, payload)] + DecodeAttrs(more).value)
  {
    hide DecodeAttrs;
    var len := NLA_HDR_LEN + |payload|;
    assert Encode(Leaf(ty, payload)) == Le16(len) + Le16(ty) + payload + Zeros(Align4(len) - len);
    FramedFront(ty, payload, more);
  }

  lemma NestFramed(ty: AttrType, kids: seq<Attr>)
    requires Fits(Nest(ty, kids))
    ensures var body := EncodeAll(kids);
      var len := NLA_HDR_LEN + |body|;
      len < 0x1_0000
      && Encode(Nest(ty, kids)) == Le16(len) + Le16(ty + NLA_F_NESTED) + body + Zeros(Align4(len) - len)
  {
    hide EncodeAll, FitsAll, SizeAll, Le16;
  }

  lemma FlagStripped(ty: AttrType)
    ensures (ty + NLA_F_NESTED) % 0x4000 == ty
  {
  }

  lemma NestFront(ty: AttrType, kids: seq<Attr>, more: seq<byte>)
    requires Fits(Nest(ty, kids))
    requires DecodeAttrs(EncodeAll(kids)) == Some(kids)
    requires DecodeAttrs(more).Some?
    ensures DecodeAttrs(Encode(Nest(ty, kids)) + more) == Some([Nest(ty, kids)] + DecodeAttrs(more).value)
  {
    hide DecodeAttrs;
    NestFramed(ty, kids);
    var body := EncodeAll(kids);
    var len := NLA_HDR_LEN + |body|;
    hide Encode, EncodeAll, SizeAll, FitsAll, Fits, Size, Le16;
    FlagStripped(ty);
    FramedFront(ty + NLA_F_NESTED, body, more);
  }

  /** Whatever tree was encoded, the independent decoder recovers exactly that tree. */
  lemma {:induction false} AttrsRoundTrip(attrs: seq<Attr>)
    requires FitsAll(attrs)
    ensures DecodeAttrs(EncodeAll(attrs)) == Some(attrs)
    decreases attrs
  {
    if attrs != [] {
      AttrsRoundTrip(attrs[1..]);
      match attrs[0] {
        case Leaf(ty, payload) =>
          LeafFront(ty, payload, EncodeAll(attrs[1..]));
        case Nest(ty, kids) =>
          AttrsRoundTrip(kids);
          NestFront(ty, kids, EncodeAll(attrs[1..]));
      }
      assert attrs == [attrs[0]] + attrs[1..];
    }
  }

  lemma HeadFields(m: Msg)
    ensures var h := MsgHead(m);
      && h[0..2] == Le16(m.ty) && h[2..4] == Le16(m.flags) && h[4..8] == Le32(m.seqno)
      && h[12] == m.family && h[14..16] == Be16(m.resId)
  {
  }

  lemma MsgSlices(m: Msg, more: seq<byte>)
    requires MsgFits(m)
    ensures var b := EncodeMsg(m) + more;
      && b[..4] == Le32(MsgSize(m)) && b[4..20] == MsgHead(m)
      && b[20..MsgSize(m)] == EncodeAll(m.attrs) && b[MsgSize(m)..] == more
  {
    var b := EncodeMsg(m) + more;
    assert b == Le32(MsgSize(m)) + (MsgHead(m) + EncodeAll(m.attrs) + more);
    assert b == (Le32(MsgSize(m)) + MsgHead(m)) + (EncodeAll(m.attrs) + more);
  }

  /** The fields the decoder reads out of the sixteen bytes after the length word. */
  lemma HeadReadBack(m: Msg, b: seq<byte>)
    requires |b| >= MSG_FIXED_LEN && b[4..20] == MsgHead(m)
    ensures FromLe16(b[4..6]) == m.ty && FromLe16(b[6..8]) == m.flags
    ensures FromLe32(b[8..12]) == m.seqno && b[16] == m.family && FromBe16(b[18..20]) == m.resId
  {
    HeadFields(m);
    SliceOfSlice(b, 4, 20, 0, 2);
    SliceOfSlice(b, 4, 20, 2, 4);
    SliceOfSlice(b, 4, 20, 4, 8);
    SliceOfSlice(b, 4, 20, 14, 16);
    assert b[16] == b[4..20][12];
    WordsReadBack(m.ty, m.seqno);
    WordsReadBack(m.flags, 0);
    WordsReadBack(m.resId, 0);
  }

  lemma DecodeMsgStep(m: Msg, b: seq<byte>, len: u32, body: seq<byte>)
    requires MSG_FIXED_LEN <= len <= |b| && len % 4 == 0
    requires FromLe32(b[..4]) == len && b[20..len] == body
    requires DecodeAttrs(body) == Some(m.attrs)
    requires FromLe16(b[4..6]) == m.ty && FromLe16(b[6..8]) == m.flags
    requires FromLe32(b[8..12]) == m.seqno && b[16] == m.family && FromBe16(b[18..20]) == m.resId
    ensures DecodeMsg(b) == Some((m, len))
  {
    hide DecodeAttrs, FromLe16, FromLe32, FromBe16;
    assert Align4(len) == len;
  }

  lemma DecodeMsgFront(m: Msg, more: seq<byte>)
    requires MsgFits(m)
    ensures DecodeMsg(EncodeMsg(m) + more) == Some((m, MsgSize(m)))
  {
    hide EncodeMsg, MsgHead, DecodeAttrs;
    MsgSlices(m, more);
    HeadReadBack(m, EncodeMsg(m) + more);
    AttrsRoundTrip(m.attrs);
    WordsReadBack(0, MsgSize(m));
    DecodeMsgStep(m, EncodeMsg(m) + more, MsgSize(m), EncodeAll(m.attrs));
  }

  /** The same for a whole stream of messages. */
  lemma {:induction false} MsgsRoundTrip(msgs: seq<Msg>)
    requires MsgsFit(msgs)
    ensures DecodeMsgs(EncodeMsgs(msgs)) == Some(msgs)
  {
    hide EncodeMsg, DecodeMsg, MsgFits;
    if msgs != [] {
      MsgsRoundTrip(msgs[1..]);
      var e, more := EncodeMsg(msgs[0]), EncodeMsgs(msgs[1..]);
      DecodeMsgFront(msgs[0], more);
      assert (e + more)[|e|..] == more;
      assert msgs == [msgs[0]] + msgs[1..];
    }
  }

  // ----- concatenation -----------------------------------------------------------------------

  lemma AttrsCons(a: Attr, rest: seq<Attr>)
    ensures FitsAll([a] + rest) <==> Fits(a) && FitsAll(rest)
    ensures SizeAll([a] + rest) == Size(a) + SizeAll(rest)
    ensures FitsAll([a] + rest) ==> EncodeAll([a] + rest) == Encode(a) + EncodeAll(rest)
  {
    hide Fits, Size, Encode;
    assert ([a] + rest)[1..] == rest;
  }

  lemma AttrsConsConcat(a: Attr, rest: seq<Attr>, ys: seq<Attr>)
    requires FitsAll(rest + ys) <==> FitsAll(rest) && FitsAll(ys)
    requires SizeAll(rest + ys) == SizeAll(rest) + SizeAll(ys)
    requires FitsAll(rest + ys) ==> EncodeAll(rest + ys) == EncodeAll(rest) + EncodeAll(ys)
    ensures FitsAll([a] + rest + ys) <==> FitsAll([a] + rest) && FitsAll(ys)
    ensures SizeAll([a] + rest + ys) == SizeAll([a] + rest) + SizeAll(ys)
    ensures FitsAll([a] + rest + ys) ==> EncodeAll([a] + rest + ys) == EncodeAll([a] + rest) + EncodeAll(ys)
  {
    hide FitsAll, SizeAll, EncodeAll, Fits, Size, Encode;
    AttrsCons(a, rest);
    AttrsCons(a, rest + ys);
    assert [a] + rest + ys == [a] + (rest + ys);
    if FitsAll(rest + ys) && Fits(a) {
      assert Encode(a) + (EncodeAll(rest) + EncodeAll(ys)) == (Encode(a) + EncodeAll(rest)) + EncodeAll(ys);
    }
  }

  lemma {:induction false} AttrsConcat(xs: seq<Attr>, ys: seq<Attr>)
    ensures FitsAll(xs + ys) <==> FitsAll(xs) && FitsAll(ys)
    ensures SizeAll(xs + ys) == SizeAll(xs) + SizeAll(ys)
    ensures FitsAll(xs + ys) ==> EncodeAll(xs + ys) == EncodeAll(xs) + EncodeAll(ys)
  {
    if xs == [] {
      assert xs + ys == ys;
    } else {
      hide FitsAll, SizeAll, EncodeAll;
      AttrsConcat(xs[1..], ys);
      AttrsConsConcat(xs[0], xs[1..], ys);
      assert [xs[0]] + xs[1..] == xs;
    }
  }

  lemma MsgsCons(m: Msg, rest: seq<Msg>)
    ensures MsgsFit([m] + rest) <==> MsgFits(m) && MsgsFit(rest)
    ensures MsgsFit([m] + rest) ==> EncodeMsgs([m] + rest) == EncodeMsg(m) + EncodeMsgs(rest)
  {
    hide EncodeMsg, MsgFits;
    assert ([m] + rest)[1..] == rest;
  }

  lemma MsgsConsConcat(m: Msg, rest: seq<Msg>, more: seq<Msg>)
    requires MsgsFit(rest + more) <==> MsgsFit(rest) && MsgsFit(more)
    requires MsgsFit(rest + more) ==> EncodeMsgs(rest + more) == EncodeMsgs(rest) + EncodeMsgs(more)
    ensures MsgsFit([m] + rest + more) <==> MsgsFit([m] + rest) && MsgsFit(more)
    ensures MsgsFit([m] + rest + more) ==> EncodeMsgs([m] + rest + more) == EncodeMsgs([m] + rest) + EncodeMsgs(more)
  {
    hide EncodeMsg, MsgFits, EncodeMsgs, MsgsFit;
    MsgsCons(m, rest);
    MsgsCons(m, rest + more);
    assert [m] + rest + more == [m] + (rest + more);
    if MsgsFit(rest + more) && MsgFits(m) {
      var e := EncodeMsg(m);
      assert e + (EncodeMsgs(rest) + EncodeMsgs(more)) == (e + EncodeMsgs(rest)) + EncodeMsgs(more);
    }
  }

  lemma {:induction false} MsgsConcat(xs: seq<Msg>, ys: seq<Msg>)
    ensures MsgsFit(xs + ys) <==> MsgsFit(xs) && MsgsFit(ys)
    ensures MsgsFit(xs + ys) ==> EncodeMsgs(xs + ys) == EncodeMsgs(xs) + EncodeMsgs(ys)
  {
    if xs == [] {
      assert xs + ys == ys;
    } else {
      hide EncodeMsgs, MsgsFit;
      MsgsConcat(xs[1..], ys);
      MsgsConsConcat(xs[0], xs[1..], ys);
      assert [xs[0]] + xs[1..] == xs;
    }
  }

  lemma TakeOneMore<T>(s: seq<T>, k: nat)
    requires k < |s|
    ensures s[..k] + [s[k]] == s[..k + 1]
  {
  }

  lemma One(a: Attr)
    ensures FitsAll([a]) <==> Fits(a)
    ensures SizeAll([a]) == Size(a)
    ensures Fits(a) ==> EncodeAll([a]) == Encode(a)
  {
    assert [a][1..] == [];
  }
}
