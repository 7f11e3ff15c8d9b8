/** Machine integers and their byte orders. The guest is x86_64 only, so the source's
    `to_ne_bytes` is little-endian throughout. */
module Bytes {
  type byte = n: int | 0 <= n < 0x100
  type u16 = n: int | 0 <= n < 0x1_0000
  type u32 = n: int | 0 <= n < 0x1_0000_0000

  function Le16(n: u16): (b: seq<byte>)
    ensures |b| == 2
  {
    [n % 256, n / 256]
  }

  function Le32(n: u32): (b: seq<byte>)
    ensures |b| == 4
  {
    Le16(n % 0x1_0000) + Le16(n / 0x1_0000)
  }

  function Be16(n: u16): (b: seq<byte>)
    ensures |b| == 2
  {
    [n / 256, n % 256]
  }

  function Be32(n: u32): (b: seq<byte>)
    ensures |b| == 4
  {
    Be16(n / 0x1_0000) + Be16(n % 0x1_0000)
  }

  function FromLe16(b: seq<byte>): (n: u16)
    requires |b| == 2
    ensures Le16(n) == b
  {
    var lo: int, hi: int := b[0], b[1];
    lo + 256 * hi
  }

  function JoinHalves(lo: u16, hi: u16): u32 {
    var l: int, h: int := lo, hi;
    l + 0x1_0000 * h
  }

  lemma WordHalves(lo: u16, hi: u16)
    ensures JoinHalves(lo, hi) % 0x1_0000 == lo && JoinHalves(lo, hi) / 0x1_0000 == hi
  {
  }

  function FromLe32(b: seq<byte>): (n: u32)
    requires |b| == 4
    ensures Le32(n) == b
  {
    var lo, hi := FromLe16(b[..2]), FromLe16(b[2..]);
    WordHalves(lo, hi);
    assert b == b[..2] + b[2..];
    JoinHalves(lo, hi)
  }

  function FromBe16(b: seq<byte>): (n: u16)
    requires |b| == 2
    ensures Be16(n) == b
  {
    var hi: int, lo: int := b[0], b[1];
    256 * hi + lo
  }

  function FromBe32(b: seq<byte>): (n: u32)
    requires |b| == 4
    ensures Be32(n) == b
  {
    var hi, lo := FromBe16(b[..2]), FromBe16(b[2..]);
    WordHalves(lo, hi);
    assert b == b[..2] + b[2..];
    JoinHalves(lo, hi)
  }

  lemma Le32Injective(m: u32, n: u32)
    requires Le32(m) == Le32(n)
    ensures m == n
  {
    assert Le32(m)[..2] == Le16(m % 0x1_0000) && Le32(n)[..2] == Le16(n % 0x1_0000);
    assert Le32(m)[2..] == Le16(m / 0x1_0000) && Le32(n)[2..] == Le16(n / 0x1_0000);
  }

  lemma Be32Injective(m: u32, n: u32)
    requires Be32(m) == Be32(n)
    ensures m == n
  {
    assert Be32(m)[..2] == Be16(m / 0x1_0000) && Be32(n)[..2] == Be16(n / 0x1_0000);
    assert Be32(m)[2..] == Be16(m % 0x1_0000) && Be32(n)[2..] == Be16(n % 0x1_0000);
  }

  /** Reading back what was written, for the two word sizes the wire uses. */
  lemma WordsReadBack(m: u16, n: u32)
    ensures FromLe16(Le16(m)) == m && FromBe16(Be16(m)) == m
    ensures FromLe32(Le32(n)) == n && FromBe32(Be32(n)) == n
  {
    Le32Injective(FromLe32(Le32(n)), n);
    Be32Injective(FromBe32(Be32(n)), n);
  }

  function Zeros(n: nat): (b: seq<byte>)
    ensures |b| == n
    ensures forall i :: 0 <= i < n ==> b[i] == 0
  {
    seq(n, i => 0)
  }

  /** `len.next_multiple_of(4)`. */
  function Align4(n: nat): (r: nat)
    ensures r % 4 == 0 && n <= r < n + 4
  {
    (n + 3) / 4 * 4
  }

  /** The NUL-terminated bytes of an ASCII string. */
  function CStr(s: string): (b: seq<byte>)
    requires forall i :: 0 <= i < |s| ==> s[i] as int < 128
    ensures |b| == |s| + 1
  {
    seq(|s|, i requires 0 <= i < |s| => s[i] as int) + [0]
  }

  lemma SliceOfSlice(b: seq<byte>, lo: nat, hi: nat, i: nat, j: nat)
    requires lo + j <= hi <= |b| && i <= j
    ensures b[lo..hi][i..j] == b[lo + i..lo + j]
  {
    assert forall k :: 0 <= k < j - i ==> b[lo..hi][i..j][k] == b[lo..hi][i + k] == b[lo + i..lo + j][k];
  }

  lemma ThreeParts(b: seq<byte>, i: nat, j: nat)
    requires i <= j <= |b|
    ensures b == b[..i] + b[i..j] + b[j..]
  {
    assert b[..j] == b[..i] + b[i..j];
    assert b == b[..j] + b[j..];
  }

  /** Byte-lexicographic order: how `memcmp` compares two fields of one length. */
  predicate LexLeq(a: seq<byte>, b: seq<byte>)
    requires |a| == |b|
  {
    if a == [] then true
    else if a[0] != b[0] then a[0] < b[0]
    else LexLeq(a[1..], b[1..])
  }

  /** Big-endian byte order agrees with numeric order, which is what lets a port range be
      tested on raw header bytes. */
  lemma BigEndianOrder(m: u16, n: u16)
    ensures LexLeq(Be16(m), Be16(n)) <==> m <= n
  {
    var a, b := Be16(m), Be16(n);
    assert a[1..][1..] == [] && b[1..][1..] == [];
    assert LexLeq(a[1..], b[1..]) <==> a[1] <= b[1];
  }
}
