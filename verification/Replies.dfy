/** Reading netlink streams back: `split_message`, `check_reply`, and `send_batch`'s wait for
    one acknowledgement per acknowledgeable message. */
module Replies {
  import opened Wrappers
  import opened Bytes

  const NLMSG_HDR_LEN: nat := 16
  const NLMSG_ERROR: u16 := 2
  const RECV_BUFFER: nat := 8192

  datatype ReplyError =
    | MalformedLength
    | TruncatedPadding
    | TruncatedHeader
    | TruncatedError
    | RejectedMessage(seqno: u32, code: u32)
    | RecvFailed

  // ----- one message at a time ---------------------------------------------------------------

  /** The message at the front of `reply` and what follows its padding; `None` once less than a
      header is left. */
  function SplitMessage(reply: seq<byte>): (r: Result<Option<(seq<byte>, seq<byte>)>, ReplyError>)
    ensures r.Ok? && r.value.Some? ==>
      var (message, rest) := r.value.value;
      && NLMSG_HDR_LEN <= |message| <= |reply| - |rest| < |message| + 4
      && reply == message + reply[|message|..|reply| - |rest|] + rest
  {
    if |reply| < NLMSG_HDR_LEN then Ok(None)
    else
      var len := FromLe32(reply[..4]);
      if len < NLMSG_HDR_LEN || len > |reply| then Err(MalformedLength)
      else if Align4(len) > |reply| && len != |reply| then Err(TruncatedPadding)
      else
        var next := if Align4(len) <= |reply| then Align4(len) else |reply|;
        ThreeParts(reply, len, next);
        Ok(Some((reply[..len], reply[next..])))
  }

  lemma SplitKnown(reply: seq<byte>, len: u32)
    requires NLMSG_HDR_LEN <= len <= |reply| && len % 4 == 0 && FromLe32(reply[..4]) == len
    ensures SplitMessage(reply) == Ok(Some((reply[..len], reply[len..])))
  {
    hide FromLe32;
    assert Align4(len) == len;
  }

  /** How many acknowledgements a message accounts for; a nonzero error code is an error. */
  function CheckReply(message: seq<byte>): (r: Result<nat, ReplyError>)
    ensures r.Ok? ==> r.value <= 1
  {
    if |message| < 6 then Err(TruncatedHeader)
    else if FromLe16(message[4..6]) != NLMSG_ERROR then Ok(0)
    else if |message| < NLMSG_HDR_LEN + 4 then Err(TruncatedError)
    else
      var code := FromLe32(message[NLMSG_HDR_LEN..NLMSG_HDR_LEN + 4]);
      if code == 0 then Ok(1)
      else if |message| < NLMSG_HDR_LEN + 16 then Err(RejectedMessage(0, code))
      else Err(RejectedMessage(FromLe32(message[NLMSG_HDR_LEN + 12..NLMSG_HDR_LEN + 16]), code))
  }

  // ----- whole datagrams ---------------------------------------------------------------------

  /** Every message of a datagram, when it splits cleanly to its end. */
  function Messages(d: seq<byte>): Option<seq<seq<byte>>>
    decreases |d|
  {
    match SplitMessage(d)
    case Err(_) => None
    case Ok(None) => Some([])
    case Ok(Some((message, rest))) =>
      match Messages(rest)
      case None => None
      case Some(more) => Some([message] + more)
  }

  /** The length word a message begins with. */
  function LengthWord(message: seq<byte>): nat
    requires |message| >= 4
  {
    var b0: int, b1: int, b2: int, b3: int := message[0], message[1], message[2], message[3];
    b0 + 256 * b1 + 65536 * b2 + 16777216 * b3
  }

  /** The datagram is these messages one after another: each is as long as its own first word says, the
      next begins at the following multiple of four, and what is left at the end is too short for
      another one. Only the last may come without its padding. */
  ghost predicate Framed(d: seq<byte>, messages: seq<seq<byte>>)
    decreases |messages|
  {
    if messages == [] then |d| < 16
    else
      var m := messages[0];
      && 16 <= |m| && m <= d && LengthWord(m) == |m|
      && exists gap: nat :: PaddedBy(|m|, gap, |d|) && Framed(d[|m| + gap..], messages[1..])
  }

  predicate PaddedBy(length: nat, gap: nat, available: nat) {
    length + gap <= available && if (length + gap) % 4 == 0 then gap < 4 else gap == 0 && length == available
  }

  /** A datagram that begins with a message: what it consists of is that message and what the rest
      consists of. */
  lemma FramedFirst(d: seq<byte>, len: nat, next: nat, messages: seq<seq<byte>>)
    requires 16 <= len <= next <= |d| && len == LengthWord(d) && PaddedBy(len, next - len, |d|)
    ensures Framed(d, messages) <==> messages != [] && messages[0] == d[..len] && Framed(d[next..], messages[1..])
  {
    hide LengthWord, PaddedBy;
    SameLength(d[..len], d);
    OneGap(len, |d|, next - len);
    if messages != [] && 16 <= |messages[0]| && messages[0] <= d {
      SameLength(messages[0], d);
    }
  }

  lemma SplitFirst(d: seq<byte>, len: nat, next: nat)
    requires 16 <= len <= next <= |d| && len == LengthWord(d) && PaddedBy(len, next - len, |d|)
    ensures SplitMessage(d) == Ok(Some((d[..len], d[next..])))
  {
    hide FromLe32, LengthWord;
    LengthIs(d);
  }

  /** Splitting recovers exactly the messages a datagram consists of. */
  lemma {:induction false} MessagesFramed(d: seq<byte>, messages: seq<seq<byte>>)
    ensures Messages(d) == Some(messages) <==> Framed(d, messages)
    decreases |d|
  {
    if |d| >= 16 {
      LengthIs(d);
      hide FromLe32, LengthWord;
      var len := LengthWord(d);
      if 16 <= len <= |d| && !(Align4(len) > |d| && len != |d|) {
        var next := if Align4(len) <= |d| then Align4(len) else |d|;
        SplitFirst(d, len, next);
        FramedFirst(d, len, next, messages);
        MessagesStep(d, d[..len], d[next..]);
        hide Framed, Messages, SplitMessage;
        if messages != [] {
          MessagesFramed(d[next..], messages[1..]);
          Uncons(d[..len], messages, Messages(d[next..]));
        }
      } else {
        NotFramed(d, messages);
      }
    }
  }

  lemma Uncons(first: seq<byte>, messages: seq<seq<byte>>, rest: Option<seq<seq<byte>>>)
    requires messages != []
    ensures (rest.Some? && [first] + rest.value == messages) <==> messages[0] == first && rest == Some(messages[1..])
  {
    if messages[0] == first && rest == Some(messages[1..]) {
      assert [first] + messages[1..] == messages;
    }
    if rest.Some? {
      assert ([first] + rest.value)[1..] == rest.value;
    }
  }

  lemma LengthIs(d: seq<byte>)
    requires |d| >= 4
    ensures FromLe32(d[..4]) == LengthWord(d)
  {
  }

  lemma OneGap(length: nat, available: nat, gap: nat)
    requires PaddedBy(length, gap, available)
    ensures forall other: nat :: PaddedBy(length, other, available) ==> other == gap
  {
  }

  lemma NotFramed(d: seq<byte>, messages: seq<seq<byte>>)
    requires |d| >= 16
    requires var len := LengthWord(d); len < 16 || len > |d| || (Align4(len) > |d| && len != |d|)
    ensures !Framed(d, messages)
  {
    hide LengthWord;
    if messages != [] && 16 <= |messages[0]| && messages[0] <= d {
      SameLength(messages[0], d);
    }
  }

  lemma SameLength(m: seq<byte>, d: seq<byte>)
    requires 4 <= |m| && m <= d
    ensures LengthWord(m) == LengthWord(d)
  {
  }

  /** An error message (type 2) with error code zero: netlink's acknowledgement. */
  predicate IsAck(message: seq<byte>) {
    |message| >= 20 && message[4..6] == [2, 0] && message[16..20] == [0, 0, 0, 0]
  }

  /** An error message whose error code is not zero, or is cut off. */
  predicate Rejects(message: seq<byte>) {
    |message| >= 6 && message[4..6] == [2, 0] && !IsAck(message)
  }

  /** What a single message is taken for is read off its bytes: an acknowledgement counts one, a
      rejection is an error, and anything else of a full header counts nothing. */
  lemma ChecksBytes(message: seq<byte>)
    ensures CheckReply(message).Ok? <==> |message| >= 6 && !Rejects(message)
    ensures CheckReply(message).Ok? ==> CheckReply(message) == Ok(if IsAck(message) then 1 else 0)
  {
    if |message| >= 6 {
      TypeWord(message[4..6]);
    }
    if |message| >= 20 {
      CodeWord(message[16..20]);
    }
  }

  lemma TypeWord(b: seq<byte>)
    requires |b| == 2
    ensures FromLe16(b) == NLMSG_ERROR <==> b == [2, 0]
  {
  }

  lemma CodeWord(b: seq<byte>)
    requires |b| == 4
    ensures FromLe32(b) == 0 <==> b == [0, 0, 0, 0]
  {
  }

  function CountAcks(messages: seq<seq<byte>>): nat {
    if messages == [] then 0 else (if IsAck(messages[0]) then 1 else 0) + CountAcks(messages[1..])
  }

  /** A datagram that splits cleanly and in which no message reports a failure. */
  predicate Clean(d: seq<byte>) {
    Messages(d).Some? && forall m :: m in Messages(d).value ==> !Rejects(m)
  }

  /** What one `recv` puts into the fixed buffer; `None` is a failed or timed-out read. */
  function Received(d: Option<seq<byte>>): Option<seq<byte>> {
    match d
    case None => None
    case Some(b) => Some(if |b| <= RECV_BUFFER then b else b[..RECV_BUFFER])
  }

  predicate GoodRead(d: Option<seq<byte>>) {
    Received(d).Some? && Clean(Received(d).value)
  }

  function AcksIn(d: Option<seq<byte>>): nat
    requires GoodRead(d)
  {
    CountAcks(Messages(Received(d).value).value)
  }

  function AcksRead(stream: seq<Option<seq<byte>>>): nat
    requires forall i :: 0 <= i < |stream| ==> GoodRead(stream[i])
  {
    if stream == [] then 0
    else
      assert GoodRead(stream[|stream| - 1]);
      AcksRead(stream[..|stream| - 1]) + AcksIn(stream[|stream| - 1])
  }

  ghost predicate Prefix(stream: seq<Option<seq<byte>>>, n: nat) {
    n <= |stream| && forall i :: 0 <= i < n ==> GoodRead(stream[i])
  }

  /** The first `n` reads are clean and together acknowledge the whole batch. */
  ghost predicate Acknowledged(stream: seq<Option<seq<byte>>>, n: nat, ackable: nat) {
    Prefix(stream, n) && AcksRead(stream[..n]) >= ackable
  }

  /** Read number `k` brings a rejection, and nothing up to it has acknowledged the whole batch. */
  ghost predicate RejectedAt(stream: seq<Option<seq<byte>>>, k: nat, ackable: nat) {
    && k < |stream| && Received(stream[k]).Some?
    && (exists messages, m :: Framed(Received(stream[k]).value, messages) && m in messages && Rejects(m))
    && forall n :: 0 <= n <= k ==> !Acknowledged(stream, n, ackable)
  }

  ghost predicate Rejected(stream: seq<Option<seq<byte>>>, ackable: nat) {
    exists k :: RejectedAt(stream, k, ackable)
  }

  /** From a rejection on, no batch is acknowledged. */
  lemma RejectionFails(stream: seq<Option<seq<byte>>>, k: nat, ackable: nat)
    requires RejectedAt(stream, k, ackable)
    ensures !exists n :: Acknowledged(stream, n, ackable)
  {
    var d := Received(stream[k]).value;
    var messages, m :| Framed(d, messages) && m in messages && Rejects(m);
    MessagesFramed(d, messages);
    assert !GoodRead(stream[k]);
  }

  lemma RejectedFails(stream: seq<Option<seq<byte>>>, ackable: nat)
    ensures Rejected(stream, ackable) ==> !exists n :: Acknowledged(stream, n, ackable)
  {
    if k :| RejectedAt(stream, k, ackable) {
      RejectionFails(stream, k, ackable);
    }
  }

  // ----- the loops ---------------------------------------------------------------------------

  /** `seen` has been split off the front of `d`, leaving `reply`. */
  ghost predicate Consumed(d: seq<byte>, seen: seq<seq<byte>>, reply: seq<byte>) {
    match Messages(reply)
    case None => Messages(d).None?
    case Some(more) => Messages(d) == Some(seen + more)
  }

  lemma ConsumedNone(d: seq<byte>)
    ensures Consumed(d, [], d)
  {
    if Messages(d).Some? {
      assert [] + Messages(d).value == Messages(d).value;
    }
  }

  lemma MessagesStep(reply: seq<byte>, message: seq<byte>, rest: seq<byte>)
    requires SplitMessage(reply) == Ok(Some((message, rest)))
    ensures Messages(reply) == if Messages(rest).None? then None else Some([message] + Messages(rest).value)
  {
    hide SplitMessage;
  }

  lemma ConsumedMore(d: seq<byte>, seen: seq<seq<byte>>, reply: seq<byte>, message: seq<byte>, rest: seq<byte>)
    requires Consumed(d, seen, reply) && SplitMessage(reply) == Ok(Some((message, rest)))
    ensures Consumed(d, seen + [message], rest)
    ensures Messages(d).Some? ==> |seen| < |Messages(d).value| && Messages(d).value[|seen|] == message
  {
    MessagesStep(reply, message, rest);
    hide SplitMessage, Messages;
    if Messages(rest).Some? {
      assert seen + ([message] + Messages(rest).value) == (seen + [message]) + Messages(rest).value;
    }
  }

  lemma ConsumedAll(d: seq<byte>, seen: seq<seq<byte>>, reply: seq<byte>)
    requires Consumed(d, seen, reply)
    ensures SplitMessage(reply).Err? ==> Messages(d).None?
    ensures SplitMessage(reply) == Ok(None) ==> Messages(d) == Some(seen)
  {
    assert seen + [] == seen;
  }

  /** The inner loop: every message of one datagram, checked in order. */
  method DrainDatagram(d: seq<byte>) returns (r: Result<nat, ReplyError>)
    ensures r.Ok? <==> Clean(d)
    ensures r.Ok? ==> r.value == CountAcks(Messages(d).value)
  {
    hide CheckReply, Messages, Consumed, CountAcks, Rejects, IsAck;
    var reply, acks := d, 0;
    ghost var seen: seq<seq<byte>> := [];
    ConsumedNone(d);
    CountNone();
    while true
      invariant forall m :: m in seen ==> !Rejects(m)
      invariant acks == CountAcks(seen) && Consumed(d, seen, reply)
      decreases |reply|
    {
      ConsumedAll(d, seen, reply);
      var next := SplitMessage(reply);
      if next.Err? {
        return Err(next.error);
      }
      if next.value.None? {
        return Ok(acks);
      }
      var (message, rest) := next.value.value;
      ConsumedMore(d, seen, reply, message, rest);
      ChecksBytes(message);
      var checked := CheckReply(message);
      if checked.Err? {
        return Err(checked.error);
      }
      CountSnoc(seen, message);
      acks, seen, reply := acks + checked.value, seen + [message], rest;
    }
  }

  lemma CountNone()
    ensures CountAcks([]) == 0
  {
  }

  lemma {:induction false} CountSnoc(messages: seq<seq<byte>>, m: seq<byte>)
    ensures CountAcks(messages + [m]) == CountAcks(messages) + if IsAck(m) then 1 else 0
  {
    if messages == [] {
      assert [m][1..] == [];
    } else {
      assert (messages + [m])[1..] == messages[1..] + [m];
      CountSnoc(messages[1..], m);
    }
  }

  /** `send_batch` after the send: `stream` is what successive reads return, and a stream that
      runs out is a read that times out. Success means exactly that some run of clean reads
      acknowledged every message that asked for it; a rejection before that is never a success. */
  method AwaitAcks(ackable: nat, stream: seq<Option<seq<byte>>>) returns (r: Result<(), ReplyError>)
    ensures r.Ok? <==> exists n :: Acknowledged(stream, n, ackable)
    ensures Rejected(stream, ackable) ==> r.Err?
  {
    RejectedFails(stream, ackable);
    var acks, n := 0, 0;
    AcksReadNone(stream);
    hide Received, Clean, CountAcks, Messages, AcksRead, Acknowledged, Rejected;
    while acks < ackable
      invariant n <= |stream|
      invariant Prefix(stream, n) && acks == AcksRead(stream[..n])
      invariant forall m :: 0 <= m < n ==> AcksRead(stream[..m]) < ackable
      decreases |stream| - n
    {
      if n == |stream| || Received(stream[n]).None? {
        NeverAcknowledged(ackable, stream, n);
        return Err(RecvFailed);
      }
      var drained := DrainDatagram(Received(stream[n]).value);
      if drained.Err? {
        NeverAcknowledged(ackable, stream, n);
        return Err(drained.error);
      }
      AcksReadNext(stream, n);
      acks, n := acks + drained.value, n + 1;
    }
    AcknowledgedNow(ackable, stream, n);
    return Ok(());
  }

  lemma AcksReadNone(stream: seq<Option<seq<byte>>>)
    ensures Prefix(stream, 0) && AcksRead(stream[..0]) == 0
  {
  }

  lemma AcksReadNext(stream: seq<Option<seq<byte>>>, n: nat)
    requires n < |stream| && Prefix(stream, n) && GoodRead(stream[n])
    ensures Prefix(stream, n + 1) && AcksRead(stream[..n + 1]) == AcksRead(stream[..n]) + AcksIn(stream[n])
  {
    assert stream[..n + 1][..n] == stream[..n];
  }

  lemma AcknowledgedNow(ackable: nat, stream: seq<Option<seq<byte>>>, n: nat)
    requires Prefix(stream, n) && AcksRead(stream[..n]) >= ackable
    ensures exists m :: Acknowledged(stream, m, ackable)
  {
    assert Acknowledged(stream, n, ackable);
  }

  lemma NeverAcknowledged(ackable: nat, stream: seq<Option<seq<byte>>>, n: nat)
    requires n <= |stream| && (n == |stream| || !GoodRead(stream[n]))
    requires Prefix(stream, n) && forall m :: 0 <= m <= n ==> AcksRead(stream[..m]) < ackable
    ensures !exists m :: Acknowledged(stream, m, ackable)
  {
  }
}
