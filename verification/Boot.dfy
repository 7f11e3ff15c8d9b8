/** How the app is started: a forked child gives up everything it has, step by step, and executes the
    app only if every step worked. The kernel's side checks privileges call by call, so that giving
    something up too early would be refused. */
module Boot {
  import opened Bytes
  import opened Seccomp
  import opened Wrappers
  import L = Landlock

  const CAP_SETGID: nat := 6
  const CAP_SETUID: nat := 7
  const CAP_SETPCAP: nat := 8
  const CAP_SYS_ADMIN: nat := 21
  const CAP_SYS_RESOURCE: nat := 24

  const SYS_PRCTL: u32 := 157
  const SYS_SECCOMP: u32 := 317

  datatype Resource = Nofile | Nproc | Memlock | AddressSpace

  /** Zero address space means no cap. */
  datatype ResourceLimits = ResourceLimits(nofile: nat, nproc: nat, memlock: nat, addressSpace: nat)

  /** The features the guest is compiled with, as far as its coming up depends on them. */
  datatype Features = Features(firewall: bool, ipv6: bool, landlock: bool, allowWriteExecute: bool, sevSnp: bool)

  datatype Errno = Success | EPERM | EINVAL | OtherError

  predicate ValidAppIds(uid: nat, gid: nat) {
    uid != 0 && uid != 0xFFFF_FFFF && gid != 0 && gid != 0xFFFF_FFFF
  }

  function AllCaps(lastCap: nat): (r: set<nat>)
    ensures forall c: nat :: c in r <==> c <= lastCap
  {
    if lastCap == 0 then {0} else AllCaps(lastCap - 1) + {lastCap}
  }

  function Call(nr: u32): SeccompData {
    SeccompData(nr, AUDIT_ARCH_X86_64, [])
  }

  /** A process as the kernel sees it. Any call may fail; `refused` records one that failed for want
      of a privilege, `killed` that a filter struck, `failed` any other failure. */
  class Process {
    const lastCap: nat
    var uid: nat
    var gid: nat
    var groups: set<nat>
    var effective: set<nat>
    var inheritable: set<nat>
    var bounding: set<nat>
    var limits: map<Resource, nat>   // soft and hard alike
    var noNewPrivs: bool
    var refuseExecGain: bool
    var domain: Option<seq<L.Grant>> // the Landlock rules enforced on it
    var filters: seq<Filter>
    var environ: map<string, string>
    var executed: bool
    ghost var refused: bool
    ghost var killed: bool
    ghost var failed: bool

    /** What PID 1's child starts with: everything. */
    constructor (lastCap: nat, limits: map<Resource, nat>)
      requires 24 <= lastCap < 64
      ensures this.lastCap == lastCap && AsForked() && Unharmed() && !failed
    {
      this.lastCap := lastCap;
      uid, gid, groups := 0, 0, {0};
      effective := AllCaps(lastCap);
      inheritable := {};
      bounding := AllCaps(lastCap);
      this.limits := limits;
      noNewPrivs, refuseExecGain, domain, filters, environ, executed := false, false, None, [], map[], false;
      refused, killed, failed := false, false, false;
    }

    ghost predicate AsForked()
      reads this
    {
      && 24 <= lastCap < 64 && uid == 0 && gid == 0
      && effective == AllCaps(lastCap) && bounding == AllCaps(lastCap) && inheritable == {}
      && filters == [] && !executed
    }

    ghost predicate Unharmed()
      reads this
    {
      !refused && !killed
    }

    method SetRlimit(r: Resource, value: nat) returns (e: Errno)
      modifies this`limits, this`refused, this`failed
      ensures e == Success ==> limits == old(limits)[r := value]
      ensures e != Success ==> limits == old(limits)
      ensures CAP_SYS_RESOURCE in effective ==> refused == old(refused) && (e == Success || failed)
      ensures if e == Success then failed == old(failed) else old(failed) ==> failed
      ensures CAP_SYS_RESOURCE !in effective && r in old(limits) && value > old(limits)[r] ==> e == EPERM && refused
    {
      if CAP_SYS_RESOURCE !in effective && (r !in limits || value > limits[r]) {
        refused := true;
        return EPERM;
      }
      var fails: bool := *;
      if fails {
        failed := true;
        return OtherError;
      }
      limits := limits[r := value];
      e := Success;
    }

    method CapbsetDrop(cap: nat) returns (e: Errno)
      modifies this`bounding, this`refused
      ensures e == Success ==> bounding == old(bounding) - {cap}
      ensures e != Success ==> bounding == old(bounding)
      ensures CAP_SETPCAP in effective ==> refused == old(refused) && (e == Success || e == EINVAL)
      ensures CAP_SETPCAP in effective && e == EINVAL ==> cap > lastCap
      ensures CAP_SETPCAP !in effective ==> e == EPERM && refused
    {
      if CAP_SETPCAP !in effective {
        refused := true;
        return EPERM;
      }
      if cap > lastCap {
        return EINVAL;
      }
      bounding := bounding - {cap};
      e := Success;
    }

    method SetGroups() returns (e: Errno)
      modifies this`groups, this`refused, this`failed
      ensures e == Success ==> groups == {}
      ensures CAP_SETGID in effective ==> refused == old(refused) && (e == Success || failed)
      ensures if e == Success then failed == old(failed) else old(failed) ==> failed
    {
      if CAP_SETGID !in effective {
        refused := true;
        return EPERM;
      }
      var fails: bool := *;
      if fails {
        failed := true;
        return OtherError;
      }
      groups := {};
      e := Success;
    }

    method SetGid(g: nat) returns (e: Errno)
      modifies this`gid, this`refused
      ensures e == Success ==> gid == g
      ensures CAP_SETGID in effective ==> refused == old(refused) && e == Success
      ensures CAP_SETGID !in effective && g != old(gid) ==> e == EPERM && refused
    {
      if CAP_SETGID !in effective && g != gid {
        refused := true;
        return EPERM;
      }
      gid := g;
      e := Success;
    }

    /** Leaving uid 0 empties the effective set. */
    method SetUid(u: nat) returns (e: Errno)
      modifies this`uid, this`effective, this`refused, this`failed
      ensures e == Success ==> uid == u && effective == (if old(uid) == 0 && u != 0 then {} else old(effective))
      ensures CAP_SETUID in old(effective) ==> refused == old(refused) && (e == Success || failed)
      ensures if e == Success then failed == old(failed) else old(failed) ==> failed
    {
      if CAP_SETUID !in effective && u != uid {
        refused := true;
        return EPERM;
      }
      var fails: bool := *;
      if fails {
        failed := true;
        return OtherError;
      }
      effective := if uid == 0 && u != 0 then {} else effective;
      uid := u;
      e := Success;
    }

    method SetMdwe() returns (e: Errno)
      modifies this`refuseExecGain, this`failed
      ensures e == Success ==> refuseExecGain
      ensures e == Success || failed
      ensures if e == Success then failed == old(failed) else old(failed) ==> failed
    {
      var fails: bool := *;
      if fails {
        failed := true;
        return OtherError;
      }
      refuseExecGain := true;
      e := Success;
    }

    method SetNoNewPrivs() returns (e: Errno)
      modifies this`noNewPrivs, this`killed
      ensures e == Success && noNewPrivs
      ensures !Kills(Verdict(filters, Call(SYS_PRCTL))) ==> killed == old(killed)
    {
      killed := killed || Kills(Verdict(filters, Call(SYS_PRCTL)));
      noNewPrivs := true;
      e := Success;
    }

    method LandlockRestrictSelf(grants: seq<L.Grant>) returns (e: Errno)
      modifies this`domain, this`refused, this`failed
      ensures e == Success ==> domain == Some(grants)
      ensures noNewPrivs ==> refused == old(refused) && (e == Success || failed)
      ensures if e == Success then failed == old(failed) else old(failed) ==> failed
    {
      if !noNewPrivs && CAP_SYS_ADMIN !in effective {
        refused := true;
        return EPERM;
      }
      var fails: bool := *;
      if fails {
        failed := true;
        return OtherError;
      }
      domain := Some(grants);
      e := Success;
    }

    /** Either way of installing a filter, `nr` telling which. */
    method InstallFilter(f: Filter, nr: u32) returns (e: Errno)
      modifies this`filters, this`refused, this`killed, this`failed
      ensures e == Success ==> filters == old(filters) + [f]
      ensures e != Success ==> filters == old(filters)
      ensures noNewPrivs ==> refused == old(refused) && (e == Success || failed)
      ensures if e == Success then failed == old(failed) else old(failed) ==> failed
      ensures !Kills(Verdict(old(filters), Call(nr))) ==> killed == old(killed)
    {
      killed := killed || Kills(Verdict(filters, Call(nr)));
      if !noNewPrivs && CAP_SYS_ADMIN !in effective {
        refused := true;
        return EPERM;
      }
      var fails: bool := *;
      if fails {
        failed := true;
        return OtherError;
      }
      filters := filters + [f];
      e := Success;
    }

    /** The program gets what its file grants within the bounding set, and what was inheritable. */
    method Execve(env: map<string, string>, filePermitted: set<nat>, fileInheritable: set<nat>) returns (e: Errno)
      modifies this`effective, this`environ, this`executed, this`killed, this`failed
      ensures e == Success ==>
        executed && environ == env && effective == (inheritable * fileInheritable) + (filePermitted * bounding)
      ensures e != Success ==> executed == old(executed)
      ensures e == Success || failed
      ensures if e == Success then failed == old(failed) else old(failed) ==> failed
      ensures !Kills(Verdict(filters, Call(SYS_EXECVE))) ==> killed == old(killed)
    {
      killed := killed || Kills(Verdict(filters, Call(SYS_EXECVE)));
      var fails: bool := *;
      if fails {
        failed := true;
        return OtherError;
      }
      effective := (inheritable * fileInheritable) + (filePermitted * bounding);
      environ, executed := env, true;
      e := Success;
    }
  }

  // ----- the pre-exec chain ------------------------------------------------------------------

  method ApplyResourceLimits(p: Process, limits: ResourceLimits) returns (ok: bool)
    requires CAP_SYS_RESOURCE in p.effective
    modifies p`limits, p`refused, p`failed
    ensures p.refused == old(p.refused) && p.failed == (old(p.failed) || !ok)
    ensures ok ==> Capped(p.limits, limits)
  {
    var e := p.SetRlimit(Nofile, limits.nofile);
    if e != Success { return false; }
    e := p.SetRlimit(Nproc, limits.nproc);
    if e != Success { return false; }
    e := p.SetRlimit(Memlock, limits.memlock);
    if e != Success { return false; }
    if limits.addressSpace > 0 {
      e := p.SetRlimit(AddressSpace, limits.addressSpace);
      if e != Success { return false; }
    }
    ok := true;
  }

  predicate Capped(now: map<Resource, nat>, limits: ResourceLimits) {
    && Nofile in now && now[Nofile] == limits.nofile
    && Nproc in now && now[Nproc] == limits.nproc
    && Memlock in now && now[Memlock] == limits.memlock
    && (limits.addressSpace > 0 ==> AddressSpace in now && now[AddressSpace] == limits.addressSpace)
  }

  /** The bounding set is emptied of every capability the kernel has, tried by number up to 64; then
      the groups, the group and, last of all, the user. */
  method DropPrivileges(p: Process, uid: nat, gid: nat) returns (ok: bool)
    requires p.AsForked() && ValidAppIds(uid, gid)
    modifies p`bounding, p`groups, p`gid, p`uid, p`effective, p`refused, p`failed
    ensures p.refused == old(p.refused) && p.failed == (old(p.failed) || !ok)
    ensures ok ==> p.bounding == {} && p.groups == {} && p.gid == gid && p.uid == uid && p.effective == {}
  {
    var cap := 0;
    while cap < 64
      invariant 0 <= cap <= 64 && p.refused == old(p.refused)
      invariant p.effective == old(p.effective) && p.uid == 0 && p.failed == old(p.failed)
      invariant forall c :: c in p.bounding ==> cap <= c <= p.lastCap
    {
      var e := p.CapbsetDrop(cap);
      if e != Success && e != EINVAL {
        return false;
      }
      cap := cap + 1;
    }
    assert p.bounding == {};
    var e := p.SetGroups();
    if e != Success { return false; }
    e := p.SetGid(gid);
    if e != Success { return false; }
    e := p.SetUid(uid);
    ok := e == Success;
  }

  method RestrictSelf(p: Process, grants: seq<L.Grant>) returns (ok: bool)
    requires !Kills(Verdict(p.filters, Call(SYS_PRCTL)))
    modifies p`noNewPrivs, p`domain, p`refused, p`killed, p`failed
    ensures p.refused == old(p.refused) && p.killed == old(p.killed) && p.failed == (old(p.failed) || !ok)
    ensures ok ==> p.noNewPrivs && p.domain == Some(grants)
  {
    var e := p.SetNoNewPrivs();
    if e != Success { return false; }
    e := p.LandlockRestrictSelf(grants);
    ok := e == Success;
  }

  /** The gate first, the denylist second; the gate lets the second installation through. */
  method InstallSeccompBaseline(p: Process, list: Filter) returns (ok: bool)
    requires p.filters == []
    modifies p`noNewPrivs, p`filters, p`refused, p`killed, p`failed
    ensures p.refused == old(p.refused) && p.killed == old(p.killed) && p.failed == (old(p.failed) || !ok)
    ensures ok ==> p.noNewPrivs && p.filters == [ARCH_GATE, list]
  {
    NothingInstalled(SYS_PRCTL);
    GateAlone(SYS_PRCTL);
    GateAlone(SYS_SECCOMP);
    var e := p.SetNoNewPrivs();
    if e != Success { return false; }
    e := p.InstallFilter(ARCH_GATE, SYS_PRCTL);
    if e != Success { return false; }
    assert p.filters == [ARCH_GATE];
    e := p.SetNoNewPrivs();
    if e != Success { return false; }
    e := p.InstallFilter(list, SYS_SECCOMP);
    ok := e == Success;
  }

  lemma NothingInstalled(nr: u32)
    ensures !Kills(Verdict([], Call(nr)))
  {
  }

  lemma GateAlone(nr: u32)
    requires nr < X32_SYSCALL_BIT
    ensures !Kills(Verdict([ARCH_GATE], Call(nr)))
  {
    GateReturns(ARCH_GATE, Call(nr));
    VerdictIsLeast([ARCH_GATE], Call(nr));
    assert [ARCH_GATE][..0] == [];
  }

  ghost predicate Stripped(p: Process, uid: nat, gid: nat, limits: ResourceLimits, f: Features)
    reads p
  {
    && p.uid == uid && p.gid == gid && p.groups == {}
    && p.effective == {} && p.inheritable == {} && p.bounding == {}
    && Capped(p.limits, limits)
    && (f.allowWriteExecute || p.refuseExecGain)
  }

  /** `ruleset`: the Landlock rules the image has for its app, if it has any. */
  ghost predicate Sandboxed(p: Process, ruleset: Option<seq<L.Grant>>, list: Filter)
    reads p
  {
    (ruleset.Some? ==> p.domain == ruleset) && p.noNewPrivs && p.filters == [ARCH_GATE, list]
  }

  /** What an app is never started without. */
  ghost predicate Confined(p: Process, uid: nat, gid: nat, limits: ResourceLimits, f: Features,
                           ruleset: Option<seq<L.Grant>>, list: Filter)
    reads p
  {
    Stripped(p, uid, gid, limits, f) && Sandboxed(p, ruleset, list)
  }

  method Strip(p: Process, uid: nat, gid: nat, limits: ResourceLimits, f: Features) returns (ok: bool)
    requires p.AsForked() && ValidAppIds(uid, gid)
    modifies p`limits, p`bounding, p`groups, p`gid, p`uid, p`effective, p`refuseExecGain, p`refused, p`failed
    ensures p.refused == old(p.refused) && p.failed == (old(p.failed) || !ok)
    ensures ok ==> Stripped(p, uid, gid, limits, f)
  {
    hide Capped;
    ok := ApplyResourceLimits(p, limits);
    if !ok { return; }
    ok := DropPrivileges(p, uid, gid);
    if !ok { return; }
    if !f.allowWriteExecute {
      var e := p.SetMdwe();
      ok := e == Success;
    }
  }

  method Sandbox(p: Process, ruleset: Option<seq<L.Grant>>, list: Filter) returns (ok: bool)
    requires p.filters == []
    modifies p`noNewPrivs, p`domain, p`filters, p`refused, p`killed, p`failed
    ensures p.refused == old(p.refused) && p.killed == old(p.killed) && p.failed == (old(p.failed) || !ok)
    ensures ok ==> Sandboxed(p, ruleset, list)
  {
    hide Verdict, Kills, ARCH_GATE;
    if ruleset.Some? {
      NothingInstalled(SYS_PRCTL);
      ok := RestrictSelf(p, ruleset.value);
      if !ok { return; }
    }
    ok := InstallSeccompBaseline(p, list);
  }

  /** Everything between fork and exec. Each step still holds the privilege it needs, no filter
      already in place strikes, and all of it is done unless some call fails for a reason of its own. */
  method PreExec(p: Process, uid: nat, gid: nat, limits: ResourceLimits, f: Features,
                 ruleset: Option<seq<L.Grant>>, list: Filter) returns (ok: bool)
    requires p.AsForked() && p.Unharmed() && ValidAppIds(uid, gid)
    modifies p
    ensures p.Unharmed() && !p.executed && p.failed == (old(p.failed) || !ok)
    ensures ok ==> Confined(p, uid, gid, limits, f, ruleset, list)
  {
    hide Capped, ARCH_GATE;
    ok := Strip(p, uid, gid, limits, f);
    if !ok { return; }
    ok := Sandbox(p, ruleset, list);
  }

  /** Why the order matters: once the user is dropped, the bounding set, the group and a higher limit
      are out of reach. */
  method DroppingUserFirst(p: Process, uid: nat, gid: nat) returns (dropped: bool)
    requires p.AsForked() && ValidAppIds(uid, gid)
    requires Memlock in p.limits
    modifies p
    ensures dropped ==> p.refused && p.bounding == old(p.bounding) && p.limits == old(p.limits)
  {
    var e := p.SetUid(uid);
    dropped := e == Success;
    if dropped {
      var e1 := p.CapbsetDrop(CAP_SYS_ADMIN);
      var e2 := p.SetGid(gid);
      var e3 := p.SetRlimit(Memlock, p.limits[Memlock] + 1);
      assert e1 == EPERM && e2 == EPERM && e3 == EPERM;
    }
  }
}
