/** Overwriting in place: an open handle on bytes that already exist, and the loop that writes
    zeros through it in chunks. Every write may fail, and a failed one may have got part of the
    way. */
module ZeroWriter {
  import opened Bytes

  /** `data` once `bytes` have been written at `p`. */
  function Written(data: seq<byte>, p: nat, bytes: seq<byte>): (r: seq<byte>)
    requires p <= |data|
    ensures |r| == if p + |bytes| <= |data| then |data| else p + |bytes|
    ensures forall i :: 0 <= i < |r| ==> r[i] == if p <= i < p + |bytes| then bytes[i - p] else data[i]
  {
    data[..p] + bytes + (if p + |bytes| <= |data| then data[p + |bytes|..] else [])
  }

  function Zeroed(data: seq<byte>, p: nat, k: nat): (r: seq<byte>)
    requires p <= |data|
    ensures |r| >= p + k
  {
    Written(data, p, Zeros(k))
  }

  /** Writing `j` more zeros where `k` have been written is writing `k + j`. */
  lemma ZeroedTwice(data: seq<byte>, p: nat, k: nat, j: nat)
    requires p <= |data|
    ensures Zeroed(Zeroed(data, p, k), p + k, j) == Zeroed(data, p, k + j)
  {
  }

  lemma ZeroedNone(data: seq<byte>, p: nat)
    requires p <= |data|
    ensures Zeroed(data, p, 0) == data
  {
  }

  lemma ZerosOfZeros(zeros: seq<byte>, n: nat, k: nat)
    requires zeros == Zeros(|zeros|) && k <= n <= |zeros|
    ensures zeros[..n][..k] == Zeros(k)
  {
  }

  lemma ZeroedWhole(data: seq<byte>)
    ensures Zeroed(data, 0, |data|) == Zeros(|data|)
  {
  }

  /** An open handle: what it is open on, and the offset the next write goes to. */
  class Handle {
    var data: seq<byte>
    var pos: nat
    ghost var failed: bool  // some write did

    constructor (bytes: seq<byte>)
      ensures data == bytes && pos == 0 && !failed
    {
      data, pos, failed := bytes, 0, false;
    }

    /** All of `bytes`, or an error after some of them. */
    method WriteAll(bytes: seq<byte>) returns (ok: bool, ghost done: nat)
      requires pos <= |data|
      modifies this
      ensures done <= |bytes| && (ok ==> done == |bytes|)
      ensures failed == (old(failed) || !ok)
      ensures data == Written(old(data), old(pos), bytes[..done]) && pos == old(pos) + done
    {
      var n: nat :| n <= |bytes|;
      data, pos := Written(data, pos, bytes[..n]), pos + n;
      ok, done := n == |bytes|, n;
      failed := failed || !ok;
    }
  }

  /** Writes `len` zeros at the handle's offset, a buffer's worth at a time: exactly that many on
      success, a beginning of that on failure. An empty buffer is refused unless there is nothing
      to write. */
  method WriteZeros(sink: Handle, len: nat, zeros: seq<byte>) returns (ok: bool, ghost done: nat)
    requires sink.pos <= |sink.data| && zeros == Zeros(|zeros|)
    modifies sink
    ensures len > 0 && zeros == [] ==> !ok && done == 0
    ensures done <= len && (ok ==> done == len)
    ensures zeros != [] ==> sink.failed == (old(sink.failed) || !ok)
    ensures sink.data == Zeroed(old(sink.data), old(sink.pos), done) && sink.pos == old(sink.pos) + done
  {
    hide Zeros, Written;
    done := 0;
    ZeroedNone(sink.data, sink.pos);
    if len > 0 && zeros == [] {
      return false, done;
    }
    var remaining := len;
    while remaining > 0
      invariant done == len - remaining <= len
      invariant old(sink.pos) <= |old(sink.data)| && sink.pos <= |sink.data|
      invariant sink.failed == old(sink.failed)
      invariant sink.data == Zeroed(old(sink.data), old(sink.pos), done) && sink.pos == old(sink.pos) + done
    {
      var n := if remaining < |zeros| then remaining else |zeros|;
      ghost var step: nat;
      ok, step := sink.WriteAll(zeros[..n]);
      ZerosOfZeros(zeros, n, step);
      ZeroedTwice(old(sink.data), old(sink.pos), done, step);
      done := done + step;
      if !ok {
        return false, done;
      }
      remaining := remaining - n;
    }
    ok := true;
  }
}
