/** The app's seccomp filters: a classic-BPF interpreter, the hand-written gate it runs, the denylist
    a library compiles, and the kernel's rule that the most restrictive of all stacked filters wins. */
module Seccomp {
  import opened Bytes
  import opened Wrappers

  // ----- classic BPF -------------------------------------------------------------------------

  datatype SockFilter = SockFilter(code: nat, jt: byte, jf: byte, k: u32)

  const BPF_LD: nat := 0x00
  const BPF_W: nat := 0x00
  const BPF_ABS: nat := 0x20
  const BPF_JMP: nat := 0x05
  const BPF_JA: nat := 0x00
  const BPF_JEQ: nat := 0x10
  const BPF_JGT: nat := 0x20
  const BPF_JGE: nat := 0x30
  const BPF_K: nat := 0x00
  const BPF_RET: nat := 0x06

  /** `struct seccomp_data` as its sixteen 32-bit words: the syscall number, the architecture, and the
      instruction pointer and arguments. */
  datatype SeccompData = SeccompData(nr: u32, arch: u32, rest: seq<u32>)

  function LoadWord(d: SeccompData, offset: nat): Option<u32> {
    if offset == 0 then Some(d.nr)
    else if offset == 4 then Some(d.arch)
    else if offset % 4 == 0 && offset < 64 && offset / 4 - 2 < |d.rest| then Some(d.rest[offset / 4 - 2])
    else None
  }

  /** Runs `program` from `pc` with accumulator `a`. Jumps only go forward, so every program stops; a
      program that runs off its end, or into an instruction seccomp does not take, has no verdict. */
  function Execute(program: seq<SockFilter>, pc: nat, a: u32, d: SeccompData): Option<u32>
    decreases |program| - pc
  {
    if pc >= |program| then None
    else
      var i := program[pc];
      if i.code == BPF_LD + BPF_W + BPF_ABS then
        match LoadWord(d, i.k)
        case None => None
        case Some(word) => Execute(program, pc + 1, word, d)
      else if i.code == BPF_JMP + BPF_JA then Execute(program, pc + 1 + i.k, a, d)
      else if i.code == BPF_JMP + BPF_JEQ + BPF_K then Execute(program, pc + 1 + (if a == i.k then i.jt else i.jf), a, d)
      else if i.code == BPF_JMP + BPF_JGT + BPF_K then Execute(program, pc + 1 + (if a > i.k then i.jt else i.jf), a, d)
      else if i.code == BPF_JMP + BPF_JGE + BPF_K then Execute(program, pc + 1 + (if a >= i.k then i.jt else i.jf), a, d)
      else if i.code == BPF_RET + BPF_K then Some(i.k)
      else None
  }

  // ----- the two filters ---------------------------------------------------------------------

  const SECCOMP_DATA_NR_OFFSET: u32 := 0
  const SECCOMP_DATA_ARCH_OFFSET: u32 := 4
  const AUDIT_ARCH_X86_64: u32 := 0xC000_003E
  const X32_SYSCALL_BIT: u32 := 0x4000_0000
  const SECCOMP_RET_ALLOW: u32 := 0x7fff_0000
  const SECCOMP_RET_KILL_PROCESS: u32 := 0x8000_0000

  const ARCH_GATE_PROGRAM: seq<SockFilter> := [
    SockFilter(BPF_LD + BPF_W + BPF_ABS, 0, 0, SECCOMP_DATA_ARCH_OFFSET),
    SockFilter(BPF_JMP + BPF_JEQ + BPF_K, 0, 3, AUDIT_ARCH_X86_64),
    SockFilter(BPF_LD + BPF_W + BPF_ABS, 0, 0, SECCOMP_DATA_NR_OFFSET),
    SockFilter(BPF_JMP + BPF_JGE + BPF_K, 1, 0, X32_SYSCALL_BIT),
    SockFilter(BPF_RET + BPF_K, 0, 0, SECCOMP_RET_ALLOW),
    SockFilter(BPF_RET + BPF_K, 0, 0, SECCOMP_RET_KILL_PROCESS)
  ]

  const SYS_MEMFD_CREATE: u32 := 319
  const SYS_MEMFD_SECRET: u32 := 447
  const SYS_EXECVE: u32 := 59
  const SYS_EXECVEAT: u32 := 322

  function WriteExecuteSyscalls(allowWriteExecute: bool): set<u32> {
    if allowWriteExecute then {} else {SYS_MEMFD_CREATE, SYS_MEMFD_SECRET}
  }

  // The denied calls by their x86_64 numbers.

  /** ptrace, process_vm_readv and process_vm_writev, kcmp, move_pages, pidfd_getfd, process_madvise. */
  const OTHER_PROCESSES: set<u32> := {101, 310, 311, 312, 279, 438, 440}

  /** init_module, finit_module, delete_module, kexec_load, kexec_file_load, reboot, bpf, uselib. */
  const KERNEL_CODE: set<u32> := {175, 313, 176, 246, 320, 169, 321, 134}

  /** mount, umount2, pivot_root, fsopen, fsconfig, fsmount, move_mount, open_tree, mount_setattr. */
  const MOUNTS: set<u32> := {165, 166, 155, 430, 431, 432, 429, 428, 442}

  /** open_by_handle_at, swapon, swapoff, iopl, ioperm, acct, quotactl, modify_ldt, personality. */
  const ADMINISTRATION: set<u32> := {304, 167, 168, 172, 173, 163, 179, 154, 135}

  /** add_key, request_key, keyctl, io_uring_setup, io_uring_enter, io_uring_register, unshare, setns. */
  const KEYS_RINGS_NAMESPACES: set<u32> := {248, 249, 250, 425, 426, 427, 272, 308}

  /** perf_event_open, userfaultfd, settimeofday, clock_settime, clock_adjtime, adjtimex, syslog. */
  const OBSERVATION_AND_CLOCKS: set<u32> := {298, 323, 164, 227, 305, 159, 103}

  const BASELINE_SYSCALLS: set<u32> :=
    OTHER_PROCESSES + KERNEL_CODE + MOUNTS + ADMINISTRATION + KEYS_RINGS_NAMESPACES + OBSERVATION_AND_CLOCKS

  function Denied(allowWriteExecute: bool): set<u32> {
    BASELINE_SYSCALLS + WriteExecuteSyscalls(allowWriteExecute)
  }

  /** An installed filter: a program; a denylist a library has compiled, with what that promises on
      its own architecture, kill if listed and allow if not; or any other. */
  datatype Filter =
    | Program(code: seq<SockFilter>)
    | Denylist(denied: set<u32>, elsewhere: SeccompData -> u32)
    | Another(result: SeccompData -> u32)

  /** What a filter returns for a call. A program without a verdict would not have been installed. */
  function Returns(f: Filter, d: SeccompData): u32 {
    match f
    case Program(code) =>
      (match Execute(code, 0, 0, d)
       case Some(ret) => ret
       case None => SECCOMP_RET_KILL_PROCESS)
    case Denylist(denied, elsewhere) =>
      if d.arch != AUDIT_ARCH_X86_64 then elsewhere(d)
      else if d.nr in denied then SECCOMP_RET_KILL_PROCESS
      else SECCOMP_RET_ALLOW
    case Another(result) => result(d)
  }

  predicate IsGate(f: Filter) {
    f.Program? && f.code == ARCH_GATE_PROGRAM
  }

  const ARCH_GATE: Filter := Program(ARCH_GATE_PROGRAM)

  /** The compiled denylist of a build. */
  function BaselineDenylist(allowWriteExecute: bool, elsewhere: SeccompData -> u32): Filter {
    Denylist(Denied(allowWriteExecute), elsewhere)
  }

  predicate IsDenylist(f: Filter, denied: set<u32>) {
    f.Denylist? && f.denied == denied
  }

  predicate WrongAbi(d: SeccompData) {
    d.arch != AUDIT_ARCH_X86_64 || d.nr >= X32_SYSCALL_BIT
  }

  lemma TailReturns(d: SeccompData, a: u32)
    ensures Execute(ARCH_GATE_PROGRAM, 5, a, d) == Some(SECCOMP_RET_KILL_PROCESS)
    ensures Execute(ARCH_GATE_PROGRAM, 4, a, d) == Some(SECCOMP_RET_ALLOW)
  {
  }

  lemma NumberCheck(d: SeccompData, a: u32)
    ensures Execute(ARCH_GATE_PROGRAM, 2, a, d) ==
            Some(if d.nr >= X32_SYSCALL_BIT then SECCOMP_RET_KILL_PROCESS else SECCOMP_RET_ALLOW)
  {
    TailReturns(d, d.nr);
    assert Execute(ARCH_GATE_PROGRAM, 3, d.nr, d) ==
           Execute(ARCH_GATE_PROGRAM, if d.nr >= X32_SYSCALL_BIT then 5 else 4, d.nr, d);
  }

  /** The gate's jumps land where they should: for every system call, of any architecture and number,
      it kills exactly the ones that come through another ABI. */
  lemma ArchGateKills(d: SeccompData)
    ensures Execute(ARCH_GATE_PROGRAM, 0, 0, d) ==
            Some(if WrongAbi(d) then SECCOMP_RET_KILL_PROCESS else SECCOMP_RET_ALLOW)
    ensures WrongAbi(d) <==> d.arch != 0xC000_003E || d.nr >= 0x4000_0000
  {
    TailReturns(d, d.arch);
    NumberCheck(d, d.arch);
    assert Execute(ARCH_GATE_PROGRAM, 1, d.arch, d) ==
           Execute(ARCH_GATE_PROGRAM, if d.arch == AUDIT_ARCH_X86_64 then 2 else 5, d.arch, d);
  }

  /** A number of an ordinary call, and of neither exec. */
  predicate Ordinary(nr: u32) {
    101 <= nr < X32_SYSCALL_BIT && nr != SYS_EXECVEAT
  }

  lemma GroupsAreOrdinary()
    ensures forall nr :: nr in OTHER_PROCESSES ==> Ordinary(nr)
    ensures forall nr :: nr in KERNEL_CODE ==> Ordinary(nr)
    ensures forall nr :: nr in MOUNTS ==> Ordinary(nr)
  {
  }

  lemma MoreGroupsAreOrdinary()
    ensures forall nr :: nr in ADMINISTRATION ==> Ordinary(nr)
    ensures forall nr :: nr in KEYS_RINGS_NAMESPACES ==> Ordinary(nr)
    ensures forall nr :: nr in OBSERVATION_AND_CLOCKS ==> Ordinary(nr)
  {
  }

  lemma DeniedAreOrdinary(nr: u32, allowWriteExecute: bool)
    requires nr in Denied(allowWriteExecute)
    ensures Ordinary(nr)
  {
    hide OTHER_PROCESSES, KERNEL_CODE, MOUNTS, ADMINISTRATION, KEYS_RINGS_NAMESPACES, OBSERVATION_AND_CLOCKS;
    GroupsAreOrdinary();
    MoreGroupsAreOrdinary();
  }

  /** The denied calls in the order of their numbers. */
  predicate AlwaysDenied(nr: u32) {
    || nr == 101 || nr == 103 || 134 <= nr <= 135 || 154 <= nr <= 155 || nr == 159 || 163 <= nr <= 169
    || 172 <= nr <= 173 || 175 <= nr <= 176 || nr == 179 || nr == 227 || nr == 246 || 248 <= nr <= 250
    || nr == 272 || nr == 279 || nr == 298 || 304 <= nr <= 305 || nr == 308 || 310 <= nr <= 313
    || 320 <= nr <= 321 || nr == 323 || 425 <= nr <= 432 || nr == 438 || nr == 440 || nr == 442
  }

  lemma FirstGroupsNumbered(nr: u32)
    ensures nr in OTHER_PROCESSES <==> nr in {101, 279, 310, 311, 312, 438, 440}
    ensures nr in KERNEL_CODE <==> nr in {134, 169, 175, 176, 246, 313, 320, 321}
    ensures nr in MOUNTS <==> nr in {155, 165, 166, 428, 429, 430, 431, 432, 442}
  {
  }

  lemma MoreGroupsNumbered(nr: u32)
    ensures nr in ADMINISTRATION <==> nr in {135, 154, 163, 167, 168, 172, 173, 179, 304}
    ensures nr in KEYS_RINGS_NAMESPACES <==> nr in {248, 249, 250, 272, 308, 425, 426, 427}
    ensures nr in OBSERVATION_AND_CLOCKS <==> nr in {103, 159, 164, 227, 298, 305, 323}
  {
  }

  lemma InSomeGroup(nr: u32)
    ensures nr in BASELINE_SYSCALLS <==>
      || nr in OTHER_PROCESSES || nr in KERNEL_CODE || nr in MOUNTS || nr in ADMINISTRATION
      || nr in KEYS_RINGS_NAMESPACES || nr in OBSERVATION_AND_CLOCKS
  {
    hide OTHER_PROCESSES, KERNEL_CODE, MOUNTS, ADMINISTRATION, KEYS_RINGS_NAMESPACES, OBSERVATION_AND_CLOCKS;
  }

  /** Both builds deny the same forty-eight calls; those that make anonymous executable files (319, 447)
      are denied exactly in the build that does not allow writing and executing. */
  lemma DeniedByNumber(nr: u32, allowWriteExecute: bool)
    ensures nr in Denied(allowWriteExecute) <==> AlwaysDenied(nr) || (!allowWriteExecute && (nr == 319 || nr == 447))
  {
    InSomeGroup(nr);
    hide BASELINE_SYSCALLS, OTHER_PROCESSES, KERNEL_CODE, MOUNTS, ADMINISTRATION, KEYS_RINGS_NAMESPACES;
    hide OBSERVATION_AND_CLOCKS;
    FirstGroupsNumbered(nr);
    MoreGroupsNumbered(nr);
  }

  // ----- stacking ----------------------------------------------------------------------------

  /** The action is the upper half of the value, and the kernel compares actions as signed numbers:
      the smaller one is the more restrictive. */
  function Action(ret: u32): int {
    var action := ret / 0x1_0000;
    if action >= 0x8000 then action - 0x1_0000 else action
  }

  /** All filters run, and the first of the most restrictive results stands. */
  function Verdict(filters: seq<Filter>, d: SeccompData): u32 {
    if filters == [] then SECCOMP_RET_ALLOW
    else
      var rest := Verdict(filters[..|filters| - 1], d);
      var last := Returns(filters[|filters| - 1], d);
      if Action(last) < Action(rest) then last else rest
  }

  lemma {:induction false} VerdictIsLeast(filters: seq<Filter>, d: SeccompData)
    ensures forall i :: 0 <= i < |filters| ==> Action(Verdict(filters, d)) <= Action(Returns(filters[i], d))
    ensures Action(Verdict(filters, d)) <= Action(SECCOMP_RET_ALLOW)
    ensures Verdict(filters, d) != SECCOMP_RET_ALLOW ==>
      exists i :: 0 <= i < |filters| && Returns(filters[i], d) == Verdict(filters, d)
  {
    if filters != [] {
      VerdictIsLeast(filters[..|filters| - 1], d);
    }
  }

  /** No action is more restrictive than killing the process. */
  lemma KillIsLeast(ret: u32)
    ensures Action(SECCOMP_RET_KILL_PROCESS) <= Action(ret)
    ensures Action(ret) == Action(SECCOMP_RET_KILL_PROCESS) <==> 0x8000_0000 <= ret < 0x8001_0000
  {
  }

  predicate Kills(ret: u32) {
    Action(ret) == Action(SECCOMP_RET_KILL_PROCESS)
  }

  lemma GateReturns(gate: Filter, d: SeccompData)
    requires IsGate(gate)
    ensures Returns(gate, d) == if WrongAbi(d) then SECCOMP_RET_KILL_PROCESS else SECCOMP_RET_ALLOW
  {
    ArchGateKills(d);
  }

  /** Wherever in the stack the gate and a denylist stand, and whatever else is stacked with them, a
      call of another ABI or on the denylist kills the process. */
  lemma StackKills(filters: seq<Filter>, gate: nat, list: nat, denied: set<u32>, d: SeccompData)
    requires gate < |filters| && list < |filters|
    requires IsGate(filters[gate]) && IsDenylist(filters[list], denied)
    requires WrongAbi(d) || d.nr in denied
    ensures Kills(Verdict(filters, d))
  {
    hide Execute, IsGate;
    GateReturns(filters[gate], d);
    VerdictIsLeast(filters, d);
    KillIsLeast(Verdict(filters, d));
    if WrongAbi(d) {
      assert Action(Verdict(filters, d)) <= Action(Returns(filters[gate], d));
    } else {
      assert Action(Verdict(filters, d)) <= Action(Returns(filters[list], d));
    }
  }

  /** With just these two, in either order, everything else is allowed. */
  lemma TwoFiltersExactly(gate: Filter, list: Filter, gateFirst: bool, denied: set<u32>, d: SeccompData)
    requires IsGate(gate) && IsDenylist(list, denied)
    ensures var verdict := Verdict(if gateFirst then [gate, list] else [list, gate], d);
      if WrongAbi(d) || d.nr in denied then Kills(verdict) else verdict == SECCOMP_RET_ALLOW
  {
    hide Execute, IsGate;
    var filters := if gateFirst then [gate, list] else [list, gate];
    var g, l := if gateFirst then 0 else 1, if gateFirst then 1 else 0;
    GateReturns(gate, d);
    VerdictIsLeast(filters, d);
    if WrongAbi(d) || d.nr in denied {
      StackKills(filters, g, l, denied, d);
    }
  }

  /** The exec that starts the app passes both filters of either build. */
  lemma ExecIsAllowed(gate: Filter, list: Filter, gateFirst: bool, allowWriteExecute: bool, d: SeccompData)
    requires IsGate(gate) && IsDenylist(list, Denied(allowWriteExecute))
    requires d.arch == AUDIT_ARCH_X86_64 && (d.nr == SYS_EXECVE || d.nr == SYS_EXECVEAT)
    ensures Verdict(if gateFirst then [gate, list] else [list, gate], d) == SECCOMP_RET_ALLOW
  {
    hide Execute, IsGate, Denied;
    if d.nr in Denied(allowWriteExecute) {
      DeniedAreOrdinary(d.nr, allowWriteExecute);
    }
    TwoFiltersExactly(gate, list, gateFirst, Denied(allowWriteExecute), d);
  }

  /** Why the gate is needed: with the x32 bit set every denied call gets past the denylist, and only
      the gate's verdict kills it. */
  lemma DenylistAloneIsBypassed(gate: Filter, list: Filter, allowWriteExecute: bool, nr: u32)
    requires IsGate(gate) && IsDenylist(list, Denied(allowWriteExecute)) && nr in Denied(allowWriteExecute)
    ensures nr + X32_SYSCALL_BIT < 0x8000_0000
    ensures var x32 := SeccompData(nr + X32_SYSCALL_BIT, AUDIT_ARCH_X86_64, []);
      Verdict([list], x32) == SECCOMP_RET_ALLOW && Kills(Verdict([list, gate], x32))
  {
    hide Execute, IsGate, Denied;
    DeniedAreOrdinary(nr, allowWriteExecute);
    if nr + X32_SYSCALL_BIT in Denied(allowWriteExecute) {
      DeniedAreOrdinary(nr + X32_SYSCALL_BIT, allowWriteExecute);
    }
    var x32 := SeccompData(nr + X32_SYSCALL_BIT, AUDIT_ARCH_X86_64, []);
    assert [list][..0] == [];
    VerdictIsLeast([list], x32);
    TwoFiltersExactly(gate, list, false, Denied(allowWriteExecute), x32);
  }
}
