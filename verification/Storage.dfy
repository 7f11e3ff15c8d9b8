/** The persistent `/var` device: whose it is, when it may be wiped, and what a wipe leaves. Every
    system call may fail; a failure ends the boot. */
module Storage {
  import opened Bytes
  import opened Wrappers
  import opened ZeroWriter

  const SUPERBLOCK_OFFSET: nat := 1024
  const SB_MAGIC_OFFSET: nat := 0x38
  const SB_LABEL_OFFSET: nat := 0x78
  const SB_LABEL_LEN: nat := 16
  const EXT4_MAGIC: u16 := 0xEF53
  const SUPERBLOCK_PREFIX_LEN: nat := SB_LABEL_OFFSET + SB_LABEL_LEN
  const WIPE_CHUNK: nat := 1024 * 1024

  /** "CUKINIT" */
  const VOLUME_LABEL: seq<byte> := [67, 85, 75, 73, 78, 73, 84]

  predicate SuperblockIsOurs(sb: seq<byte>)
    requires |sb| == SUPERBLOCK_PREFIX_LEN
  {
    FromLe16(sb[SB_MAGIC_OFFSET..SB_MAGIC_OFFSET + 2]) == EXT4_MAGIC &&
    var name := sb[SB_LABEL_OFFSET..SB_LABEL_OFFSET + SB_LABEL_LEN];
    name[..|VOLUME_LABEL|] == VOLUME_LABEL && forall i :: |VOLUME_LABEL| <= i < SB_LABEL_LEN ==> name[i] == 0
  }

  function Superblock(data: seq<byte>): seq<byte>
    requires |data| >= SUPERBLOCK_OFFSET + SUPERBLOCK_PREFIX_LEN
  {
    data[SUPERBLOCK_OFFSET..SUPERBLOCK_OFFSET + SUPERBLOCK_PREFIX_LEN]
  }

  /** The device can be read far enough and carries the marker. */
  predicate Ours(data: seq<byte>) {
    |data| >= SUPERBLOCK_OFFSET + SUPERBLOCK_PREFIX_LEN && SuperblockIsOurs(Superblock(data))
  }

  /** The device can be read far enough and does not. */
  predicate Foreign(data: seq<byte>) {
    |data| >= SUPERBLOCK_OFFSET + SUPERBLOCK_PREFIX_LEN && !SuperblockIsOurs(Superblock(data))
  }

  /** The marker is eighteen bytes of the device, and nothing else about it: in particular a longer
      label that starts with ours is not ours, and a zeroed device is nobody's. */
  lemma OursIsEighteenBytes(data: seq<byte>)
    requires |data| >= SUPERBLOCK_OFFSET + SUPERBLOCK_PREFIX_LEN
    ensures Ours(data) <==> data[1080..1082] == [0x53, 0xEF] && data[1144..1160] == VOLUME_LABEL + Zeros(9)
  {
    var sb := Superblock(data);
    SliceOfSlice(data, 1024, 1160, SB_MAGIC_OFFSET, SB_MAGIC_OFFSET + 2);
    SliceOfSlice(data, 1024, 1160, SB_LABEL_OFFSET, SUPERBLOCK_PREFIX_LEN);
    var name := data[1144..1160];
    assert name == name[..7] + name[7..];
    assert FromLe16([0x53, 0xEF]) == EXT4_MAGIC;
    if name[..7] == VOLUME_LABEL && forall i :: 7 <= i < 16 ==> name[i] == 0 {
      assert name == VOLUME_LABEL + Zeros(9);
    }
    if name == VOLUME_LABEL + Zeros(9) {
      assert name[..7] == VOLUME_LABEL;
    }
  }

  lemma ZeroedIsForeign(n: nat)
    requires n >= SUPERBLOCK_OFFSET + SUPERBLOCK_PREFIX_LEN
    ensures Foreign(Zeros(n))
  {
    OursIsEighteenBytes(Zeros(n));
    assert Zeros(n)[1080..1082][0] == 0;
  }

  datatype Failure = CannotInspect | CannotWipe | CannotFormat | CannotMount

  datatype Outcome = Live | Fatal(failure: Failure)

  class Device {
    var data: seq<byte>
    ghost var formatted: seq<seq<byte>>  // what mke2fs found on the device, each time it ran
    ghost var failed: bool               // some call did

    constructor (bytes: seq<byte>)
      ensures data == bytes && formatted == [] && !failed
    {
      data, formatted, failed := bytes, [], false;
    }

    method ReadMarker() returns (r: Result<bool, ()>)
      modifies this`failed
      ensures r.Ok? ==> if r.value then Ours(data) else Foreign(data)
      ensures |data| < SUPERBLOCK_OFFSET + SUPERBLOCK_PREFIX_LEN ==> r.Err?
      ensures r.Err? && |data| >= SUPERBLOCK_OFFSET + SUPERBLOCK_PREFIX_LEN ==> failed
      ensures old(failed) ==> failed
    {
      var works: bool := *;
      failed := failed || !works;
      if !works || |data| < SUPERBLOCK_OFFSET + SUPERBLOCK_PREFIX_LEN {
        return Err(());
      }
      r := Ok(SuperblockIsOurs(Superblock(data)));
    }

    /** The bundled `mke2fs -L CUKINIT`: on success the device carries the marker; a failed run may
        leave anything. */
    method RunMke2fs() returns (ok: bool)
      modifies this
      ensures |data| == old(|data|) && formatted == old(formatted) + [old(data)]
      ensures if ok then Ours(data) else failed
      ensures old(failed) ==> failed
    {
      formatted := formatted + [data];
      var after: seq<byte> :| |after| == |data|;
      data := after;
      ok := *;
      ok := ok && Ours(data);
      failed := failed || !ok;
    }

    /** Zeroes the whole device and only then formats it. */
    method WipeAndFormat() returns (r: Outcome)
      modifies this
      ensures |data| == old(|data|)
      ensures formatted == old(formatted) || formatted == old(formatted) + [Zeros(|data|)]
      ensures r == Fatal(CannotWipe) ==> formatted == old(formatted)
      ensures r.Live? ==> Ours(data) && formatted == old(formatted) + [Zeros(|data|)]
      ensures r.Live? || r == Fatal(CannotWipe) || r == Fatal(CannotFormat)
      ensures r.Fatal? || old(failed) ==> failed
    {
      var openFails: bool := *;
      var syncFails: bool := *;
      failed := failed || openFails || syncFails;
      if openFails {
        return Fatal(CannotWipe);
      }
      var dev := new Handle(data);
      var ok, done := WriteZeros(dev, |data|, Zeros(WIPE_CHUNK));
      data := dev.data;
      failed := failed || dev.failed;
      if !ok || syncFails {
        return Fatal(CannotWipe);
      }
      ZeroedWhole(old(data));
      ok := RunMke2fs();
      r := if ok then Live else Fatal(CannotFormat);
    }

    /** The device is only ever written to after a successful read that found no marker; every run
        of mke2fs finds nothing but zeros; what goes live carries the marker, so no later boot wipes
        it; and on a device large enough nothing but a failing call keeps it from going live. */
    method MountPersistentVar() returns (r: Outcome)
      modifies this
      ensures |data| == old(|data|)
      ensures data != old(data) || formatted != old(formatted) ==> Foreign(old(data))
      ensures r == Fatal(CannotInspect) ==> data == old(data) && formatted == old(formatted)
      ensures old(|data|) < SUPERBLOCK_OFFSET + SUPERBLOCK_PREFIX_LEN ==> r == Fatal(CannotInspect)
      ensures formatted == old(formatted) || formatted == old(formatted) + [Zeros(|data|)]
      ensures r.Live? ==> Ours(data)
      ensures r.Live? && Foreign(old(data)) ==> formatted == old(formatted) + [Zeros(|data|)]
      ensures r.Fatal? && |data| >= SUPERBLOCK_OFFSET + SUPERBLOCK_PREFIX_LEN ==> failed
    {
      var marker := ReadMarker();
      if marker.Err? {
        return Fatal(CannotInspect);
      }
      if !marker.value {
        r := WipeAndFormat();
        if r.Fatal? {
          return;
        }
      }
      var mounted: bool := *;
      failed := failed || !mounted;
      r := if mounted then Live else Fatal(CannotMount);
    }
  }

  /** What a running guest may do to the device: anything outside the eighteen bytes of the marker. */
  predicate MarkerKept(was: seq<byte>, now: seq<byte>) {
    && |now| == |was|
    && forall i :: 0 <= i < |was| && (1080 <= i < 1082 || 1144 <= i < 1160) ==> now[i] == was[i]
  }

  lemma KeptIsOurs(was: seq<byte>, now: seq<byte>)
    requires Ours(was) && MarkerKept(was, now)
    ensures Ours(now) && |now| == |was|
  {
    OursIsEighteenBytes(was);
    OursIsEighteenBytes(now);
    assert now[1080..1082] == was[1080..1082] && now[1144..1160] == was[1144..1160];
  }

  /** One boot of the device: what it held when found, after `MountPersistentVar`, and when the
      guest, if it came up, was switched off; and whether mke2fs ran. */
  datatype Life = Life(found: seq<byte>, mounted: seq<byte>, left: seq<byte>, outcome: Outcome, formatted: bool)

  /** The boots follow one another on one device; nothing but a live guest writes between them. */
  predicate Chained(lives: seq<Life>) {
    && (forall i :: 0 < i < |lives| ==> lives[i].found == lives[i - 1].left)
    && (forall i :: 0 <= i < |lives| ==> MarkerKept(lives[i].mounted, lives[i].left))
    && (forall i :: 0 <= i < |lives| && lives[i].outcome.Fatal? ==> lives[i].left == lives[i].mounted)
  }

  /** Boot number `i` happens after the device was made ours: it came so, or some boot went live. */
  predicate Claimed(first: seq<byte>, lives: seq<Life>, i: nat) {
    Ours(first) || exists j :: 0 <= j < i && j < |lives| && lives[j].outcome.Live?
  }

  /** No boot of a claimed device wrote to it: each found the marker and kept what it found. */
  predicate Undisturbed(first: seq<byte>, lives: seq<Life>) {
    forall i :: 0 <= i < |lives| && Claimed(first, lives, i) ==>
      Ours(lives[i].found) && lives[i].mounted == lives[i].found && !lives[i].formatted
  }

  function LeftBy(first: seq<byte>, lives: seq<Life>): seq<byte> {
    if lives == [] then first else lives[|lives| - 1].left
  }

  lemma NextLife(first: seq<byte>, lives: seq<Life>, life: Life)
    requires Chained(lives) && Undisturbed(first, lives)
    requires life.found == LeftBy(first, lives) && MarkerKept(life.mounted, life.left)
    requires life.outcome.Fatal? ==> life.left == life.mounted
    requires Claimed(first, lives, |lives|) ==>
      Ours(life.found) && life.mounted == life.found && !life.formatted
    ensures Chained(lives + [life]) && Undisturbed(first, lives + [life])
    ensures Claimed(first, lives + [life], |lives| + 1) ==> Claimed(first, lives, |lives|) || life.outcome.Live?
  {
    hide MarkerKept, Ours;
    var more := lives + [life];
    assert forall j :: 0 <= j <= |lives| && Claimed(first, more, j) ==> Claimed(first, lives, j);
  }

  /** Any device over any number of boots, with the guest rewriting whatever it likes short of the
      marker each time it is up, and any call failing at any boot: once the device is ours, no later
      boot writes a byte of it or runs mke2fs on it, so every one finds and keeps exactly what the
      last guest left; until then mke2fs only ever ran on zeros. */
  method BootAgainAndAgain(device: Device, boots: nat) returns (ghost lives: seq<Life>)
    modifies device
    ensures |lives| == boots && Chained(lives) && Undisturbed(old(device.data), lives)
    ensures boots > 0 ==> lives[0].found == old(device.data)
    ensures device.data == LeftBy(old(device.data), lives)
    ensures old(device.formatted) <= device.formatted
    ensures forall k :: |old(device.formatted)| <= k < |device.formatted| ==>
      device.formatted[k] == Zeros(|device.data|)
  {
    hide Ours, Foreign, Chained, Undisturbed, MarkerKept, Claimed;
    lives := [];
    ghost var first := device.data;
    NoLives(first);
    for i := 0 to boots
      invariant |lives| == i && Chained(lives) && Undisturbed(first, lives)
      invariant i > 0 ==> lives[0].found == first
      invariant device.data == LeftBy(first, lives) && |device.data| == |first|
      invariant Claimed(first, lives, i) ==> Ours(device.data)
      invariant old(device.formatted) <= device.formatted
      invariant forall k :: |old(device.formatted)| <= k < |device.formatted| ==>
        device.formatted[k] == Zeros(|device.data|)
    {
      ghost var found, ran := device.data, |device.formatted|;
      var r := device.MountPersistentVar();
      ghost var mounted := device.data;
      OursOrForeign(found);
      Unwritten(mounted);
      if r.Live? {
        var written: seq<byte> := *;
        if MarkerKept(device.data, written) {
          KeptIsOurs(device.data, written);
          device.data := written;
        }
      }
      ghost var life := Life(found, mounted, device.data, r, |device.formatted| != ran);
      NextLife(first, lives, life);
      lives := lives + [life];
    }
  }

  lemma NoLives(first: seq<byte>)
    ensures Chained([]) && Undisturbed(first, [])
    ensures Claimed(first, [], 0) ==> Ours(first)
  {
  }

  lemma OursOrForeign(data: seq<byte>)
    ensures !(Ours(data) && Foreign(data))
  {
  }

  lemma Unwritten(data: seq<byte>)
    ensures MarkerKept(data, data)
  {
  }
}
