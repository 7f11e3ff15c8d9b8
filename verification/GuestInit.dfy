/** PID 1's way from the strings baked into it to the app it supervises: everything that can stop it on
    the way, and what is in place once it has not been stopped. */
module GuestInit {
  import opened Boot
  import opened Bytes
  import opened FirewallConfig
  import opened FirewallTheorem
  import opened GuestEnv
  import opened Seccomp
  import opened Text
  import opened Wrappers
  import L = Landlock
  import Replies

  const U32_SIZE: nat := 0x1_0000_0000
  const U64_SIZE: nat := 0x1_0000_0000_0000_0000
  const MIB: nat := 1024 * 1024

  /** The constants the guest was compiled with. */
  datatype Strings = Strings(
    payloadDir: string, appUid: string, appGid: string, appEnv: string, extraSysctls: string,
    firewallRules: string, landlockRo: string, landlockRw: string,
    limitNofile: string, limitNproc: string, limitAsMb: string, limitMemlockMb: string,
    tmpMb: string, runMb: string, shmMb: string, varTmpMb: string)

  /** What PID 1 asks of the system on its way, one kind of request each. */
  datatype Step =
    | SendBatch | MountBase | MountVar | ArmTriggers | ChownDirs | WaitForEntropy | ChmodBinary | Lockdown | StartWatcher

  /** What the kernel has and answers: the steps it refuses, the reads that follow the firewall's batch, the filesystem and
      Landlock version the ruleset is built on, and what a forked child and the app's file come with. */
  datatype World = World(
    refused: set<Step>, replies: seq<Option<seq<byte>>>, fs: L.FileSystem, abi: int, lastCap: nat,
    inherited: map<Resource, nat>, filePermitted: set<nat>, fileInheritable: set<nat>,
    elsewhere: SeccompData -> u32)

  // ----- reading the strings -----------------------------------------------------------------

  function AppIds(s: Strings): Option<(nat, nat)> {
    match (ParseUnsigned(s.appUid, U32_SIZE), ParseUnsigned(s.appGid, U32_SIZE))
    case (Some(uid), Some(gid)) => if ValidAppIds(uid, gid) then Some((uid, gid)) else None
    case _ => None
  }

  function LimitMbBytes(raw: string): Option<nat> {
    match ParseUnsigned(raw, U64_SIZE)
    case Some(mb) => if mb * MIB < U64_SIZE then Some(mb * MIB) else None
    case None => None
  }

  function LimitsOf(s: Strings): Option<ResourceLimits> {
    match (ParseUnsigned(s.limitNofile, U64_SIZE), ParseUnsigned(s.limitNproc, U64_SIZE),
           LimitMbBytes(s.limitMemlockMb), LimitMbBytes(s.limitAsMb))
    case (Some(nofile), Some(nproc), Some(memlock), Some(addressSpace)) =>
      Some(ResourceLimits(nofile, nproc, memlock, addressSpace))
    case _ => None
  }

  /** The app's environment: of two pairs with one key the later counts. */
  function EnvironOf(pairs: seq<Pair>): map<string, string> {
    if pairs == [] then map[]
    else EnvironOf(pairs[..|pairs| - 1])[pairs[|pairs| - 1].0 := pairs[|pairs| - 1].1]
  }

  predicate HasKey(pairs: seq<Pair>, k: string) {
    exists i :: 0 <= i < |pairs| && pairs[i].0 == k
  }

  predicate LastOfKey(pairs: seq<Pair>, i: nat) {
    i < |pairs| && forall j :: i < j < |pairs| ==> pairs[j].0 != pairs[i].0
  }

  /** The environment the pairs ask for: their keys, each with the value of its last pair, and nothing
      else. */
  ghost predicate HoldsPairs(env: map<string, string>, pairs: seq<Pair>) {
    && (forall k :: k in env <==> HasKey(pairs, k))
    && (forall i: nat :: LastOfKey(pairs, i) ==> pairs[i].0 in env && env[pairs[i].0] == pairs[i].1)
  }

  lemma KeysSnoc(before: seq<Pair>, last: Pair, k: string)
    ensures HasKey(before + [last], k) <==> HasKey(before, k) || k == last.0
  {
    var pairs := before + [last];
    assert pairs[|before|] == last;
    if HasKey(before, k) {
      var i :| 0 <= i < |before| && before[i].0 == k;
      assert pairs[i].0 == k;
    }
    if HasKey(pairs, k) && k != last.0 {
      var i :| 0 <= i < |pairs| && pairs[i].0 == k;
      assert before[i].0 == k;
    }
  }

  lemma LastSnoc(before: seq<Pair>, last: Pair, i: nat)
    requires LastOfKey(before + [last], i)
    ensures i == |before| || (LastOfKey(before, i) && before[i].0 != last.0)
  {
    var pairs := before + [last];
    assert pairs[|before|] == last;
    assert forall j :: 0 <= j < |before| ==> pairs[j] == before[j];
  }

  lemma HoldsSnoc(env: map<string, string>, before: seq<Pair>, last: Pair)
    requires HoldsPairs(env, before)
    ensures HoldsPairs(env[last.0 := last.1], before + [last])
  {
    hide HasKey, LastOfKey;
    var more, pairs := env[last.0 := last.1], before + [last];
    forall k
      ensures k in more <==> HasKey(pairs, k)
    {
      KeysSnoc(before, last, k);
    }
    forall i: nat | LastOfKey(pairs, i)
      ensures i < |pairs| && pairs[i].0 in more && more[pairs[i].0] == pairs[i].1
    {
      LastSnoc(before, last, i);
      LastInRange(before, i);
    }
  }

  lemma LastInRange(pairs: seq<Pair>, i: nat)
    ensures LastOfKey(pairs, i) ==> i < |pairs|
  {
  }

  lemma NoPairs()
    ensures HoldsPairs(EnvironOf([]), [])
  {
  }

  lemma EnvironSnoc(before: seq<Pair>, last: Pair)
    ensures EnvironOf(before + [last]) == EnvironOf(before)[last.0 := last.1]
  {
    assert (before + [last])[..|before|] == before;
  }

  lemma {:induction false} EnvironHolds(pairs: seq<Pair>)
    ensures HoldsPairs(EnvironOf(pairs), pairs)
  {
    hide HoldsPairs, EnvironOf;
    if pairs == [] {
      NoPairs();
    } else {
      var before, last := pairs[..|pairs| - 1], pairs[|pairs| - 1];
      EnvironHolds(before);
      HoldsSnoc(EnvironOf(before), before, last);
      EnvironSnoc(before, last);
      assert before + [last] == pairs;
    }
  }

  /** What can be passed to a program at all. */
  predicate NulFree(pairs: seq<Pair>) {
    forall p :: p in pairs ==> '\0' !in p.0 && '\0' !in p.1
  }

  function LandlockFeatures(f: Features): L.Features {
    L.Features(f.allowWriteExecute, f.sevSnp)
  }

  function AppRules(s: Strings, f: Features): seq<L.Rule> {
    L.AllRules(s.payloadDir, ParsePathList(s.landlockRo), ParsePathList(s.landlockRw), LandlockFeatures(f))
  }

  /** The Landlock rules the app is to run under, in an image that has any. */
  function AppRuleset(s: Strings, f: Features, fs: L.FileSystem): Option<seq<L.Grant>> {
    if f.landlock then Some(L.Grants(AppRules(s, f), fs)) else None
  }

  // ----- what has to be right ----------------------------------------------------------------

  predicate AppUsable(s: Strings) {
    && AppIds(s).Some? && LimitsOf(s).Some?
    && ParsePairs(s.appEnv).Some? && NulFree(ParsePairs(s.appEnv).value)
  }

  predicate SizesUsable(s: Strings) {
    && ParseUnsigned(s.tmpMb, U64_SIZE).Some? && ParseUnsigned(s.runMb, U64_SIZE).Some?
    && ParseUnsigned(s.shmMb, U64_SIZE).Some? && ParseUnsigned(s.varTmpMb, U64_SIZE).Some?
  }

  /** Every constant the guest parses is one it accepts. */
  predicate Usable(s: Strings, f: Features) {
    && AppUsable(s) && SizesUsable(s) && ParsePairs(s.extraSysctls).Some?
    && (f.firewall ==> ParseRules(s.firewallRules).Some?)
  }

  predicate SandboxBuilds(s: Strings, f: Features, w: World) {
    f.landlock ==> w.abi >= L.MIN_ABI && L.Buildable(AppRules(s, f), w.fs)
  }

  /** The kernel acknowledged the batch made of the rules. */
  ghost predicate FilterTaken(s: Strings, f: Features, w: World) {
    f.firewall ==>
      var batch := Compiled(s.firewallRules, TableFamily(f.ipv6));
      batch.Ok? && exists n :: Replies.Acknowledged(w.replies, n, batch.value.ackable)
  }

  lemma FilterNeedsRules(s: Strings, f: Features, w: World)
    ensures FilterTaken(s, f, w) && f.firewall ==> ParseRules(s.firewallRules).Some?
  {
  }

  lemma UsableIds(s: Strings)
    ensures AppUsable(s) ==> AppIds(s).Some?
  {
  }

  /** No step is refused that an image with these features takes. */
  predicate NothingRefused(f: Features, w: World) {
    forall step :: step in w.refused ==> step == SendBatch && !f.firewall
  }

  // ----- the app -----------------------------------------------------------------------------

  /** What an app is never started without. */
  ghost predicate AsConfigured(p: Process, s: Strings, f: Features, w: World)
    requires AppUsable(s)
    reads p
  {
    var (uid, gid) := AppIds(s).value;
    && Confined(p, uid, gid, LimitsOf(s).value, f, AppRuleset(s, f, w.fs),
                BaselineDenylist(f.allowWriteExecute, w.elsewhere))
    && HoldsPairs(p.environ, ParsePairs(s.appEnv).value)
  }

  /** `landlock::build` in an image that has it. */
  method BuildRuleset(s: Strings, f: Features, w: World)
      returns (ok: bool, ruleset: Option<seq<L.Grant>>, ghost broke: bool)
    ensures ok <==> SandboxBuilds(s, f, w) && !broke
    ensures ok ==> ruleset == AppRuleset(s, f, w.fs)
  {
    hide L.AllRules, L.Grants, L.Attr, ParsePathList;
    if !f.landlock {
      return true, None, false;
    }
    var r, kernel: L.KernelRuleset?, failed :=
      L.Build(s.payloadDir, ParsePathList(s.landlockRo), ParsePathList(s.landlockRw), LandlockFeatures(f), w.fs, w.abi);
    broke := failed;
    ok := r.Built?;
    ruleset := if ok then Some(kernel.grants) else None;
  }

  /** Fork, the pre-exec chain, exec. */
  method Spawn(uid: nat, gid: nat, limits: ResourceLimits, f: Features, ruleset: Option<seq<L.Grant>>,
               env: map<string, string>, w: World) returns (child: Process)
    requires 24 <= w.lastCap < 64 && ValidAppIds(uid, gid)
    ensures fresh(child) && child.Unharmed() && child.executed == !child.failed
    ensures child.executed ==>
      && Confined(child, uid, gid, limits, f, ruleset, BaselineDenylist(f.allowWriteExecute, w.elsewhere))
      && child.environ == env
  {
    hide Capped, Verdict, Denied, ARCH_GATE_PROGRAM;
    var list := BaselineDenylist(f.allowWriteExecute, w.elsewhere);
    child := new Process(w.lastCap, w.inherited);
    var ok := PreExec(child, uid, gid, limits, f, ruleset, list);
    if ok {
      ExecIsAllowed(ARCH_GATE, list, true, f.allowWriteExecute, Call(SYS_EXECVE));
      assert !Kills(SECCOMP_RET_ALLOW);
      var e := child.Execve(env, w.filePermitted, w.fileInheritable);
    }
  }

  /** The app runs only confined and with the environment configured for it, with no capability
      whatever its file grants; and it runs unless a constant is unusable, the ruleset cannot be built
      or some call fails. */
  method SpawnApp(s: Strings, f: Features, w: World) returns (ok: bool, child: Process?, ghost broke: bool)
    requires 24 <= w.lastCap < 64
    ensures ok <==> AppUsable(s) && SandboxBuilds(s, f, w) && !broke
    ensures child != null ==> fresh(child) && child.Unharmed() && child.executed == ok
    ensures ok ==> child != null && AsConfigured(child, s, f, w)
  {
    hide Confined, LimitsOf, ParsePairs, NulFree, EnvironOf, HoldsPairs, SandboxBuilds, AppRuleset, BaselineDenylist;
    ok, child, broke := false, null, false;
    var limits := LimitsOf(s);
    if limits.None? { return; }
    var built, ruleset, failed := BuildRuleset(s, f, w);
    broke := failed;
    if !built { return; }
    var ids := AppIds(s);
    if ids.None? { return; }
    var pairs := ParsePairs(s.appEnv);
    if pairs.None? || !NulFree(pairs.value) { return; }
    EnvironHolds(pairs.value);
    var p := Spawn(ids.value.0, ids.value.1, limits.value, f, ruleset, EnvironOf(pairs.value), w);
    ok, child, broke := p.executed, p, p.failed;
  }

  // ----- PID 1 up to the app -----------------------------------------------------------------

  /** The parts of the guest whose order of coming up matters. */
  class Guest {
    const f: Features
    const s: Strings
    var filter: Option<seq<byte>>    // the batch the kernel has acknowledged
    var interfacesUp: bool
    var triggersArmed: bool
    var binaryReady: bool
    var lockedDown: bool
    var child: Process?
    var wiped: bool
    ghost var exposed: bool          // an interface came up without the filter the image has
    ghost var failed: bool           // some call did while the app was being started
    ghost var startedEarly: bool     // the app was started before the lockdown or the triggers

    constructor (f: Features, s: Strings)
      ensures this.f == f && this.s == s && Fresh()
    {
      this.f, this.s := f, s;
      filter, interfacesUp, triggersArmed, binaryReady := None, false, false, false;
      lockedDown, child, wiped := false, null, false;
      exposed, startedEarly, failed := false, false, false;
    }

    ghost predicate Fresh()
      reads this
    {
      filter.None? && !lockedDown && child == null && !wiped && !exposed && !startedEarly && !failed
    }

    predicate AppRuns()
      reads this, child
    {
      child != null && child.executed && !wiped
    }

    /** Parse, build, send, and wait until every message is acknowledged. */
    method InstallFirewall(w: World) returns (ok: bool)
      requires f.firewall
      modifies this`filter
      ensures ok <==> FilterTaken(s, f, w) && SendBatch !in w.refused
      ensures ok ==> filter == Some(Compiled(s.firewallRules, TableFamily(f.ipv6)).value.bytes)
    {
      hide Compiled, ParseRules, Replies.Acknowledged;
      var batch := CompileRules(s.firewallRules, TableFamily(f.ipv6));
      if batch.Err? {
        return false;
      }
      if SendBatch in w.refused {
        return false;
      }
      var acked := Replies.AwaitAcks(batch.value.ackable, w.replies);
      ok := acked.Ok?;
      if ok {
        filter := Some(batch.value.bytes);
      }
    }

    /** The mounts, whose sizes are parsed first, and only then the interfaces. */
    method PrepareSystemEnv(w: World) returns (ok: bool)
      modifies this`interfacesUp, this`exposed
      ensures ok <==> SizesUsable(s) && w.refused !! {MountBase, MountVar}
      ensures ok ==> interfacesUp
      ensures !f.firewall || filter.Some? ==> exposed == old(exposed)
    {
      hide ParseUnsigned;
      if ParseUnsigned(s.tmpMb, U64_SIZE).None? || ParseUnsigned(s.runMb, U64_SIZE).None?
         || ParseUnsigned(s.shmMb, U64_SIZE).None? {
        return false;
      }
      if MountBase in w.refused || ParseUnsigned(s.varTmpMb, U64_SIZE).None? || MountVar in w.refused {
        return false;
      }
      ok := true;
      interfacesUp := true;
      exposed := exposed || (f.firewall && filter.None?);
    }

    /** The `chmod` of the binary, which a read-only mount refuses. */
    method PrepareAppBinary(w: World) returns (ok: bool)
      modifies this`binaryReady
      ensures ok <==> !lockedDown && ChmodBinary !in w.refused
      ensures ok ==> binaryReady
    {
      ok := !lockedDown && ChmodBinary !in w.refused;
      binaryReady := binaryReady || ok;
    }

    method StartApp(w: World) returns (ok: bool)
      requires 24 <= w.lastCap < 64 && child == null
      modifies this`child, this`startedEarly, this`failed
      ensures ok <==> AppUsable(s) && SandboxBuilds(s, f, w) && !failed
      ensures child != null ==> fresh(child) && child.Unharmed() && child.executed == ok
      ensures ok ==> child != null && AsConfigured(child, s, f, w)
      ensures lockedDown && triggersArmed && binaryReady ==> startedEarly == old(startedEarly)
    {
      hide AppUsable, SandboxBuilds, AsConfigured;
      startedEarly := startedEarly || !lockedDown || !triggersArmed || !binaryReady;
      ghost var broke: bool;
      ok, child, broke := SpawnApp(s, f, w);
      failed := broke;
    }

    /** From the filter to the lockdown: everything that comes before the app. */
    method ComeUp(w: World) returns (ok: bool)
      requires Fresh() && AppIds(s).Some?
      modifies this`filter, this`interfacesUp, this`exposed, this`triggersArmed, this`binaryReady, this`lockedDown
      ensures !exposed
      ensures ok <==> FilterTaken(s, f, w) && SizesUsable(s) && ParsePairs(s.extraSysctls).Some?
                      && forall step :: step in w.refused ==> step == StartWatcher || (step == SendBatch && !f.firewall)
      ensures ok ==> interfacesUp && triggersArmed && binaryReady && lockedDown
      ensures ok && f.firewall ==> filter == Some(Compiled(s.firewallRules, TableFamily(f.ipv6)).value.bytes)
    {
      hide Compiled, ParseRules, ParsePairs, SizesUsable, AppIds, Replies.Acknowledged;
      if f.firewall {
        ok := InstallFirewall(w);
        if !ok { return; }
      }
      ok := PrepareSystemEnv(w);
      if !ok { return; }
      if ArmTriggers in w.refused {
        return false;
      }
      triggersArmed := true;
      if ChownDirs in w.refused || ParsePairs(s.extraSysctls).None? || WaitForEntropy in w.refused {
        return false;
      }
      ok := PrepareAppBinary(w);
      if !ok { return; }
      ok := Lockdown !in w.refused;
      lockedDown := ok;
    }

    /** The ids, everything that comes before the app, the app, and the thread that watches for a
        shutdown. */
    method Launch(w: World) returns (ok: bool)
      requires 24 <= w.lastCap < 64 && Fresh()
      modifies this`filter, this`interfacesUp, this`exposed, this`triggersArmed, this`binaryReady, this`lockedDown,
               this`child, this`startedEarly, this`failed
      ensures !exposed && !startedEarly
      ensures ok <==> AppUsable(s) && SizesUsable(s) && ParsePairs(s.extraSysctls).Some?
                      && FilterTaken(s, f, w) && SandboxBuilds(s, f, w) && NothingRefused(f, w) && !failed
      ensures ok ==> child != null && child.executed && interfacesUp && lockedDown && AsConfigured(child, s, f, w)
      ensures ok && f.firewall ==> filter == Some(Compiled(s.firewallRules, TableFamily(f.ipv6)).value.bytes)
    {
      UsableIds(s);
      hide AppUsable, ParsePairs, SizesUsable, AppIds, FilterTaken, SandboxBuilds, AsConfigured, Compiled, TableFamily;
      if AppIds(s).None? {
        return false;
      }
      ok := ComeUp(w);
      if !ok { return; }
      ok := StartApp(w);
      if !ok { return; }
      ok := StartWatcher !in w.refused;
    }

    /** `fatal_shutdown`: kill everything, wipe, power off. */
    method FatalShutdown()
      modifies this`wiped
      ensures wiped
    {
      wiped := true;
    }

    /** `main`. Either the guest ends up supervising an app that is confined as its image says, with the
        configured environment, behind the configured filter, in place before any interface was up,
        and on a filesystem locked down before the app existed; or it has wiped and no app runs. And it
        is the former exactly if every constant is usable, the kernel took the filter and can hold the
        ruleset, no step was refused and no call failed while the app was being started. */
    method Boot(w: World) returns (supervising: bool)
      requires 24 <= w.lastCap < 64 && Fresh()
      modifies this
      ensures !exposed && !startedEarly
      ensures supervising <==> AppRuns()
      ensures supervising <==> !wiped
      ensures supervising <==> Usable(s, f) && FilterTaken(s, f, w) && SandboxBuilds(s, f, w)
                               && NothingRefused(f, w) && !failed
      ensures supervising ==> interfacesUp && lockedDown && AsConfigured(child, s, f, w)
      ensures supervising && f.firewall ==>
        filter == Some(Compiled(s.firewallRules, TableFamily(f.ipv6)).value.bytes)
    {
      FilterNeedsRules(s, f, w);
      hide AppUsable, ParsePairs, ParseRules, SizesUsable, FilterTaken, SandboxBuilds, AsConfigured, Compiled, TableFamily;
      supervising := Launch(w);
      if !supervising {
        FatalShutdown();
      }
    }
  }
}
