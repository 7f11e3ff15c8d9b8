/** The netlink buffer: headers are written with a zero length that is patched once the content
    behind it is known, and a length that does not fit its field latches `overflowed`. */
module NlBuf {
  import opened Wrappers
  import opened Bytes
  import opened Netlink

  /** The value of a buffer at one moment. */
  datatype Snapshot = Snapshot(bytes: seq<byte>, overflowed: bool)

  /** The part of the buffer's state a finished message can depend on is four-byte aligned. */
  predicate Aligned(s: Snapshot) {
    s.overflowed || |s.bytes| % 4 == 0
  }

  // ----- what each low-level step does to the value ------------------------------------------

  function Padded(s: Snapshot): Snapshot {
    s.(bytes := PadTo4(s.bytes))
  }

  /** Overwrites `field` at `at`, or latches when it would run past the end. */
  function Patched(s: Snapshot, at: nat, field: seq<byte>): Snapshot {
    if at + |field| > |s.bytes| then s.(overflowed := true)
    else s.(bytes := s.bytes[..at] + field + s.bytes[at + |field|..])
  }

  function PatchedU16(s: Snapshot, at: nat, value: nat): Snapshot {
    if value >= 0x1_0000 then s.(overflowed := true) else Patched(s, at, Le16(value))
  }

  function PatchedU32(s: Snapshot, at: nat, value: nat): Snapshot {
    if value >= 0x1_0000_0000 then s.(overflowed := true) else Patched(s, at, Le32(value))
  }

  function SaturatingSub(a: nat, b: nat): nat {
    if a < b then 0 else a - b
  }

  function NestedBegun(s: Snapshot, ty: AttrType): Snapshot {
    s.(bytes := s.bytes + Le16(0) + Le16(ty + NLA_F_NESTED))
  }

  function NestedEnded(s: Snapshot, at: nat): Snapshot {
    PatchedU16(Padded(s), at, SaturatingSub(|Padded(s).bytes|, at))
  }

  /** The header of a message whose length is still to be patched in. */
  function MsgBegun(s: Snapshot, m: Msg): Snapshot {
    s.(bytes := s.bytes + Le32(0) + MsgHead(m))
  }

  function MsgEnded(s: Snapshot, at: nat): Snapshot {
    PatchedU32(Padded(s), at, SaturatingSub(|Padded(s).bytes|, at))
  }

  // ----- what a stretch of building means ----------------------------------------------------

  /** Between `a` and `b` exactly `attrs` were written: either they all fit and their encoding
      was appended, or the latch is set. */
  predicate Emits(a: Snapshot, b: Snapshot, attrs: seq<Attr>) {
    && b.overflowed == (a.overflowed || !FitsAll(attrs))
    && (!b.overflowed ==> b.bytes == a.bytes + EncodeAll(attrs))
  }

  predicate EmitsMsgs(a: Snapshot, b: Snapshot, msgs: seq<Msg>) {
    && b.overflowed == (a.overflowed || !MsgsFit(msgs))
    && (!b.overflowed ==> b.bytes == a.bytes + EncodeMsgs(msgs))
  }

  lemma EmitsNothing(s: Snapshot)
    ensures Emits(s, s, [])
  {
  }

  lemma Then(a: Snapshot, b: Snapshot, c: Snapshot, xs: seq<Attr>, ys: seq<Attr>)
    requires Emits(a, b, xs) && Emits(b, c, ys)
    ensures Emits(a, c, xs + ys)
  {
    hide FitsAll, EncodeAll, SizeAll;
    AttrsConcat(xs, ys);
  }

  lemma PatchPrefix(before: seq<byte>, field: seq<byte>, after: seq<byte>, patch: seq<byte>)
    requires |field| == |patch|
    ensures var b := before + field + after;
      b[..|before|] + patch + b[|before| + |patch|..] == before + (patch + after)
  {
    var b := before + field + after;
    assert b[..|before|] == before;
    assert b[|before| + |patch|..] == after;
  }

  /** Padding and patching a header of two bytes and `raw`, once the aligned `body` is behind it. */
  lemma NestPatched(before: seq<byte>, raw: seq<byte>, body: seq<byte>)
    requires |raw| == 2 && |before| % 4 == 0 && |body| % 4 == 0
    ensures var t, n := Snapshot(before + Le16(0) + (raw + body), false), NLA_HDR_LEN + |body|;
      NestedEnded(t, |before|) ==
        if n < 0x1_0000 then Snapshot(before + (Le16(n) + (raw + body)), false) else t.(overflowed := true)
  {
    hide Le16;
    var t, n := Snapshot(before + Le16(0) + (raw + body), false), NLA_HDR_LEN + |body|;
    assert |t.bytes| == |before| + n && Padded(t) == t;
    if n < 0x1_0000 {
      PatchPrefix(before, Le16(0), raw + body, Le16(n));
    }
  }

  /** The same for a message's length word and the rest of its header. */
  lemma MsgPatched(before: seq<byte>, head: seq<byte>, body: seq<byte>)
    requires |head| == MSG_FIXED_LEN - 4 && |before| % 4 == 0 && |body| % 4 == 0
    ensures var t, n := Snapshot(before + Le32(0) + (head + body), false), MSG_FIXED_LEN + |body|;
      MsgEnded(t, |before|) ==
        if n < 0x1_0000_0000 then Snapshot(before + (Le32(n) + (head + body)), false) else t.(overflowed := true)
  {
    hide Le32;
    var t, n := Snapshot(before + Le32(0) + (head + body), false), MSG_FIXED_LEN + |body|;
    assert |t.bytes| == |before| + n && Padded(t) == t;
    if n < 0x1_0000_0000 {
      PatchPrefix(before, Le32(0), head + body, Le32(n));
    }
  }

  /** Patching the length behind a finished run of children turns header and children into the
      encoding of one nested attribute, unless its length does not fit. */
  lemma NestedCloses(s: Snapshot, t: Snapshot, ty: AttrType, kids: seq<Attr>)
    requires Aligned(s) && Emits(NestedBegun(s, ty), t, kids)
    ensures Emits(s, NestedEnded(t, |s.bytes|), [Nest(ty, kids)])
  {
    hide Le16, EncodeAll, FitsAll, SizeAll;
    One(Nest(ty, kids));
    if !t.overflowed {
      var raw, body := Le16(ty + NLA_F_NESTED), EncodeAll(kids);
      assert t.bytes == s.bytes + Le16(0) + (raw + body);
      NestPatched(s.bytes, raw, body);
      if NLA_HDR_LEN + SizeAll(kids) < 0x1_0000 {
        assert Le16(NLA_HDR_LEN + SizeAll(kids)) + (raw + body) == Encode(Nest(ty, kids));
      }
    }
  }

  lemma MsgCloses(s: Snapshot, t: Snapshot, m: Msg)
    requires Aligned(s) && Emits(MsgBegun(s, m), t, m.attrs)
    ensures EmitsMsgs(s, MsgEnded(t, |s.bytes|), [m])
    ensures Aligned(MsgEnded(t, |s.bytes|))
  {
    hide Le32, EncodeAll, FitsAll, SizeAll, MsgsFit, EncodeMsgs, MsgHead;
    OneMsg(m);
    if !t.overflowed {
      var head, body := MsgHead(m), EncodeAll(m.attrs);
      assert t.bytes == s.bytes + Le32(0) + (head + body);
      MsgPatched(s.bytes, head, body);
      if MsgSize(m) < 0x1_0000_0000 {
        assert Le32(MsgSize(m)) + (head + body) == EncodeMsg(m);
      }
    }
  }

  lemma OneMsg(m: Msg)
    ensures MsgsFit([m]) <==> MsgFits(m)
    ensures MsgFits(m) ==> EncodeMsgs([m]) == EncodeMsg(m)
  {
    hide EncodeMsg, MsgFits;
    assert [m][1..] == [];
  }

  lemma ThenMsgs(a: Snapshot, b: Snapshot, c: Snapshot, xs: seq<Msg>, ys: seq<Msg>)
    requires EmitsMsgs(a, b, xs) && EmitsMsgs(b, c, ys)
    ensures EmitsMsgs(a, c, xs + ys)
  {
    hide MsgsFit, EncodeMsgs;
    MsgsConcat(xs, ys);
  }

  // ----- the buffer itself -------------------------------------------------------------------

  class NlBuf {
    var bytes: seq<byte>
    var overflowed: bool

    ghost function Now(): Snapshot
      reads this
    {
      Snapshot(bytes, overflowed)
    }

    ghost predicate Valid()
      reads this
    {
      Aligned(Now())
    }

    constructor ()
      ensures Now() == Snapshot([], false)
    {
      bytes, overflowed := [], false;
    }

    method Put(data: seq<byte>)
      modifies this
      ensures Now() == Snapshot(old(bytes) + data, old(overflowed))
    {
      bytes := bytes + data;
    }

    /** Zero-fills to the next four-byte boundary. */
    method Pad()
      modifies this
      ensures Now() == Padded(old(Now()))
      ensures |bytes| % 4 == 0 && old(bytes) <= bytes
    {
      var padding := Align4(|bytes|) - |bytes|;
      bytes := bytes + Zeros(padding);
    }

    method PatchU32(at: nat, value: nat)
      modifies this
      ensures Now() == PatchedU32(old(Now()), at, value)
    {
      if value >= 0x1_0000_0000 || at + 4 > |bytes| {
        overflowed := true;
        return;
      }
      bytes := bytes[..at] + Le32(value) + bytes[at + 4..];
    }

    method PatchU16(at: nat, value: nat)
      modifies this
      ensures Now() == PatchedU16(old(Now()), at, value)
    {
      if value >= 0x1_0000 || at + 2 > |bytes| {
        overflowed := true;
        return;
      }
      bytes := bytes[..at] + Le16(value) + bytes[at + 2..];
    }

    /** `begin_msg` and the `put_nfgenmsg` that follows every use of it. */
    method BeginMsg(ty: u16, flags: u16, seqno: u32, family: byte, resId: u16) returns (at: nat)
      modifies this
      ensures at == |old(bytes)|
      ensures Now() == MsgBegun(old(Now()), Msg(ty, flags, seqno, family, resId, []))
    {
      at := |bytes|;
      Put(Le32(0));
      Put(Le16(ty));
      Put(Le16(flags));
      Put(Le32(seqno));
      Put(Le32(0));
      Put([family, 0]);
      Put(Be16(resId));
      assert bytes == old(bytes) + Le32(0) + MsgHead(Msg(ty, flags, seqno, family, resId, []));
    }

    method EndMsg(at: nat)
      modifies this
      ensures Now() == MsgEnded(old(Now()), at)
    {
      Pad();
      PatchU32(at, SaturatingSub(|bytes|, at));
    }

    method PutAttr(ty: AttrType, payload: seq<byte>)
      requires Valid()
      modifies this
      ensures Valid() && Emits(old(Now()), Now(), [Leaf(ty, payload)])
    {
      One(Leaf(ty, payload));
      var len := NLA_HDR_LEN + |payload|;
      if len >= 0x1_0000 {
        overflowed := true;
        return;
      }
      Put(Le16(len));
      Put(Le16(ty));
      Put(payload);
      ghost var unpadded := bytes;
      Pad();
      if !overflowed {
        PadAfterAligned(old(bytes), Le16(len) + Le16(ty) + payload, unpadded);
      }
    }

    method PutBe32(ty: AttrType, value: u32)
      requires Valid()
      modifies this
      ensures Valid() && Emits(old(Now()), Now(), [Leaf(ty, Be32(value))])
    {
      PutAttr(ty, Be32(value));
    }

    method PutStr(ty: AttrType, value: string)
      requires Valid()
      requires forall i :: 0 <= i < |value| ==> value[i] as int < 128
      modifies this
      ensures Valid() && Emits(old(Now()), Now(), [Leaf(ty, CStr(value))])
    {
      PutAttr(ty, CStr(value));
    }

    method BeginNested(ty: AttrType) returns (at: nat)
      requires Valid()
      modifies this
      ensures Valid() && at == |old(bytes)| && Now() == NestedBegun(old(Now()), ty)
    {
      at := |bytes|;
      Put(Le16(0));
      Put(Le16(ty + NLA_F_NESTED));
    }

    method EndNested(at: nat)
      modifies this
      ensures Valid() && Now() == NestedEnded(old(Now()), at)
    {
      Pad();
      PatchU16(at, SaturatingSub(|bytes|, at));
    }

    method Finish() returns (r: Result<seq<byte>, ()>)
      ensures r == if overflowed then Err(()) else Ok(bytes)
    {
      if overflowed {
        return Err(());
      }
      return Ok(bytes);
    }

    /** Writes an arbitrary tree through `begin_nested`, `put_attr` and `end_nested`: every
        properly bracketed use of the builder is such a tree. */
    method EmitTree(a: Attr)
      requires Valid()
      modifies this
      ensures Valid() && Emits(old(Now()), Now(), [a])
      decreases a, 1, 0
    {
      match a
      case Leaf(ty, payload) =>
        PutAttr(ty, payload);
      case Nest(ty, kids) =>
        ghost var s0 := Now();
        var at := BeginNested(ty);
        EmitForest(kids);
        NestedCloses(s0, Now(), ty, kids);
        EndNested(at);
    }

    method EmitForest(attrs: seq<Attr>)
      requires Valid()
      modifies this
      ensures Valid() && Emits(old(Now()), Now(), attrs)
      decreases attrs, 0, |attrs|
    {
      ghost var s0 := Now();
      var i := 0;
      while i < |attrs|
        invariant 0 <= i <= |attrs| && Valid() && Emits(s0, Now(), attrs[..i])
      {
        ghost var s := Now();
        EmitTree(attrs[i]);
        Then(s0, s, Now(), attrs[..i], [attrs[i]]);
        assert attrs[..i] + [attrs[i]] == attrs[..i + 1];
        i := i + 1;
      }
      assert attrs[..i] == attrs;
    }

    /** Writes an arbitrary message between `begin_msg` and `end_msg`. */
    method EmitMsg(m: Msg)
      requires Valid()
      modifies this
      ensures Valid() && EmitsMsgs(old(Now()), Now(), [m])
    {
      ghost var s0 := Now();
      var at := BeginMsg(m.ty, m.flags, m.seqno, m.family, m.resId);
      assert MsgHead(m) == MsgHead(m.(attrs := []));
      EmitForest(m.attrs);
      MsgCloses(s0, Now(), m);
      EndMsg(at);
    }

    method EmitAll(msgs: seq<Msg>)
      requires Valid()
      modifies this
      ensures Valid() && EmitsMsgs(old(Now()), Now(), msgs)
    {
      ghost var s0 := Now();
      var i := 0;
      while i < |msgs|
        invariant 0 <= i <= |msgs| && Valid() && EmitsMsgs(s0, Now(), msgs[..i])
      {
        ghost var s := Now();
        EmitMsg(msgs[i]);
        ThenMsgs(s0, s, Now(), msgs[..i], [msgs[i]]);
        TakeOneMore(msgs, i);
        i := i + 1;
      }
      assert msgs[..i] == msgs;
    }
  }

  lemma PadAfterAligned(before: seq<byte>, added: seq<byte>, whole: seq<byte>)
    requires |before| % 4 == 0 && whole == before + added
    ensures PadTo4(whole) == before + PadTo4(added)
  {
    assert Align4(|whole|) - |whole| == Align4(|added|) - |added|;
  }

  /** Building any list of messages succeeds exactly when every attribute's length fits its 16-bit
      field and every message's its 32-bit one, and then an independent decoder recovers exactly
      those messages. */
  method BuildMsgs(msgs: seq<Msg>) returns (r: Result<seq<byte>, ()>)
    ensures r.Ok? <==> MsgsFit(msgs)
    ensures r.Ok? ==> DecodeMsgs(r.value) == Some(msgs)
  {
    var buf := new NlBuf();
    buf.EmitAll(msgs);
    r := buf.Finish();
    if r.Ok? {
      assert [] + EncodeMsgs(msgs) == EncodeMsgs(msgs);
      MsgsRoundTrip(msgs);
    }
  }
  /** Building any forest of attributes succeeds exactly when every length fits its field, and
      then an independent decoder recovers exactly that forest. */
  method BuildForest(attrs: seq<Attr>) returns (r: Result<seq<byte>, ()>)
    ensures r.Ok? <==> FitsAll(attrs)
    ensures r.Ok? ==> DecodeAttrs(r.value) == Some(attrs) && |r.value| == SizeAll(attrs)
  {
    var buf := new NlBuf();
    buf.EmitForest(attrs);
    r := buf.Finish();
    if r.Ok? {
      assert [] + EncodeAll(attrs) == EncodeAll(attrs);
      AttrsRoundTrip(attrs);
    }
  }
}
