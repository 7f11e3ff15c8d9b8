/** The Landlock ruleset the app runs under: built from a table and the configured extra paths,
    handed rule by rule to a kernel object that rejects what it does not accept, and evaluated by
    the kernel as the union of the rules on a file and everything above it. */
module Landlock {
  /** `LANDLOCK_ACCESS_FS_*`, one bit each. */
  datatype Right =
    | Execute | WriteFile | ReadFile | ReadDir | RemoveDir | RemoveFile | MakeChar | MakeDir
    | MakeReg | MakeSock | MakeFifo | MakeBlock | MakeSym | Refer | Truncate | IoctlDev

  /** A mask, as the set of its bits. */
  type Access = set<Right>

  datatype Scope = AbstractUnixSocket | Signal

  const MIN_ABI: int := 5

  const READ: Access := {ReadFile, ReadDir}
  const READ_EXEC: Access := READ + {Execute}
  const READ_WRITE: Access :=
    READ + {WriteFile, Truncate, RemoveDir, RemoveFile, MakeDir, MakeReg, MakeSock, MakeFifo, MakeSym, Refer}
  const DEV_READ_WRITE: Access := {ReadFile, WriteFile}
  const DEV_READ: Access := {ReadFile}
  const DEV_PTY: Access := {ReadFile, WriteFile, IoctlDev}
  const DEV_ATTESTATION: Access := {ReadFile, WriteFile, IoctlDev}

  /** The features the guest is compiled with. */
  datatype Features = Features(allowWriteExecute: bool, sevSnp: bool)

  function Scratch(f: Features): Access {
    if f.allowWriteExecute then READ_WRITE + {Execute} else READ_WRITE
  }

  datatype Presence = Required | Optional

  datatype Rule = Rule(path: string, access: Access, presence: Presence)

  function ScratchRules(f: Features): seq<Rule> {
    [ Rule("/tmp", Scratch(f), Required),
      Rule("/var", Scratch(f), Required),
      Rule("/var/tmp", Scratch(f), Required),
      Rule("/run", READ_WRITE, Required),
      Rule("/dev/shm", Scratch(f), Required) ]
  }

  const SYSTEM_RULES: seq<Rule> := [
    Rule("/etc", READ, Optional),
    Rule("/proc", READ, Required),
    Rule("/sys/devices/system/cpu", READ, Optional)
  ]

  const DEVICE_RULES: seq<Rule> := [
    Rule("/dev/null", DEV_READ_WRITE, Optional),
    Rule("/dev/zero", DEV_READ_WRITE, Optional),
    Rule("/dev/full", DEV_READ_WRITE, Optional),
    Rule("/dev/random", DEV_READ, Optional),
    Rule("/dev/urandom", DEV_READ, Optional)
  ]

  const PTY_RULES: seq<Rule> := [
    Rule("/dev/ptmx", DEV_PTY, Optional),
    Rule("/dev/pts", DEV_PTY, Optional)
  ]

  function AttestationRules(f: Features): seq<Rule> {
    if f.sevSnp then [Rule("/dev/sev-guest", DEV_ATTESTATION, Optional)] else []
  }

  function BuiltinRules(payload: string, f: Features): seq<Rule> {
    [Rule(payload, READ_EXEC, Required)] + ScratchRules(f) + SYSTEM_RULES + DEVICE_RULES + PTY_RULES
    + AttestationRules(f)
  }

  function Extra(paths: seq<string>, access: Access): (r: seq<Rule>)
    ensures |r| == |paths| && forall i :: 0 <= i < |r| ==> r[i] == Rule(paths[i], access, Required)
  {
    seq(|paths|, i requires 0 <= i < |paths| => Rule(paths[i], access, Required))
  }

  function AllRules(payload: string, extraRead: seq<string>, extraReadWrite: seq<string>, f: Features): seq<Rule> {
    BuiltinRules(payload, f) + Extra(extraRead, READ) + Extra(extraReadWrite, READ_WRITE)
  }

  // ----- the kernel --------------------------------------------------------------------------

  /** What opening a path gives, every symlink followed: where it is, and whether it is a directory. */
  datatype Object = Object(at: seq<string>, isDir: bool)

  type FileSystem = map<string, Object>

  datatype Grant = Grant(at: seq<string>, access: Access)

  datatype RulesetAttr = RulesetAttr(handledFs: Access, handledNet: set<nat>, scoped: set<Scope>)

  /** The ABI a right came with. */
  function SinceAbi(r: Right): int {
    match r
    case Refer => 2
    case Truncate => 3
    case IoctlDev => 5
    case _ => 1
  }

  /** The rights only a directory can have granted on it. */
  predicate DirOnly(r: Right) {
    r !in {Execute, ReadFile, WriteFile, Truncate, IoctlDev}
  }

  predicate KnownTo(abi: int, access: Access) {
    forall r :: r in access ==> SinceAbi(r) <= abi
  }

  /** The kernel reads only as much of the structure as it is told to, and knows only so much of it. */
  function ReadAttr(attr: RulesetAttr, size: nat): RulesetAttr {
    RulesetAttr(if size >= 8 then attr.handledFs else {},
                if size >= 16 then attr.handledNet else {},
                if size >= 24 then attr.scoped else {})
  }

  function KnownSize(abi: int): nat {
    if abi >= 6 then 24 else if abi >= 4 then 16 else 8
  }

  predicate Acceptable(handled: Access, isDir: bool, access: Access) {
    access != {} && access <= handled && (isDir || forall r :: r in access ==> !DirOnly(r))
  }

  /** `landlock_create_ruleset` and `landlock_add_rule`, with the checks the kernel makes before it
      allocates anything. Either may still fail for want of resources. */
  class KernelRuleset {
    const abi: int
    const attr: RulesetAttr
    var grants: seq<Grant>
    ghost var rejected: bool  // some call was refused for what it asked
    ghost var starved: bool   // some call failed for want of resources

    constructor (abi: int, attr: RulesetAttr, size: nat)
      requires size <= KnownSize(abi) && KnownTo(abi, attr.handledFs)
      ensures this.abi == abi && this.attr == ReadAttr(attr, size) && grants == [] && !rejected && !starved
    {
      this.abi, this.attr, grants, rejected, starved := abi, ReadAttr(attr, size), [], false, false;
    }

    method AddRule(target: Object, access: Access) returns (ok: bool)
      modifies this
      ensures ok ==> grants == old(grants) + [Grant(target.at, access)] && rejected == old(rejected)
      ensures !ok ==> grants == old(grants)
      ensures Acceptable(attr.handledFs, target.isDir, access) ==> rejected == old(rejected)
      ensures !ok ==> rejected || starved
      ensures ok ==> starved == old(starved)
      ensures old(starved) ==> starved
    {
      if !Acceptable(attr.handledFs, target.isDir, access) {
        rejected := true;
        return false;
      }
      ok := *;
      starved := starved || !ok;
      if ok {
        grants := grants + [Grant(target.at, access)];
      }
    }
  }

  /** The rights on a path: everything granted on it or on a directory above it. */
  function Rights(grants: seq<Grant>, p: seq<string>): Access {
    if grants == [] then {}
    else
      Rights(grants[..|grants| - 1], p)
      + (if grants[|grants| - 1].at <= p then grants[|grants| - 1].access else {})
  }

  // ----- building ----------------------------------------------------------------------------

  function HandledAccessFs(abi: int): Access {
    {Execute, WriteFile, ReadFile, ReadDir, RemoveDir, RemoveFile, MakeChar, MakeDir, MakeReg, MakeSock,
     MakeFifo, MakeBlock, MakeSym, Refer, Truncate}
    + if abi >= 5 then {IoctlDev} else {}
  }

  function RulesetAttrSize(abi: int): nat {
    if abi >= 6 then 24 else if abi >= 4 then 16 else 8
  }

  function Masked(access: Access, isDir: bool): Access {
    if isDir then access
    else access * {Execute, ReadFile, WriteFile, Truncate, IoctlDev}
  }

  datatype Fatal = AbiTooOld | CannotCreate | NulInPath | CannotOpen(path: string) | CannotStat | CannotAdd

  datatype Outcome = Built | Stopped(why: Fatal)

  /** What the rules that name something that exists grant, in order. */
  function Grants(rules: seq<Rule>, fs: FileSystem): seq<Grant> {
    if rules == [] then []
    else
      var last := rules[|rules| - 1];
      Grants(rules[..|rules| - 1], fs)
      + if last.path in fs then [Grant(fs[last.path].at, Masked(last.access, fs[last.path].isDir))] else []
  }

  predicate RequiredOpen(rules: seq<Rule>, fs: FileSystem) {
    forall r :: r in rules && r.presence == Required ==> r.path in fs
  }

  /** Every path can be passed to the kernel, and every required one opens. */
  predicate Buildable(rules: seq<Rule>, fs: FileSystem) {
    RequiredOpen(rules, fs) && forall r :: r in rules ==> '\0' !in r.path
  }

  /** What a mask holds of the rights that matter below. */
  predicate MaskIs(a: Access, execute: bool, ioctl: bool) {
    && ReadFile in a && (Execute in a <==> execute) && (IoctlDev in a <==> ioctl)
    && MakeChar !in a && MakeBlock !in a
  }

  lemma Masks(f: Features)
    ensures MaskIs(READ, false, false) && MaskIs(READ_EXEC, true, false) && MaskIs(READ_WRITE, false, false)
    ensures MaskIs(Scratch(f), f.allowWriteExecute, false)
    ensures MaskIs(DEV_READ_WRITE, false, false) && MaskIs(DEV_READ, false, false)
    ensures MaskIs(DEV_PTY, false, true) && MaskIs(DEV_ATTESTATION, false, true)
  {
  }

  predicate MayExecute(path: string, payload: string, f: Features) {
    path == payload || (f.allowWriteExecute && path in ["/tmp", "/var", "/var/tmp", "/dev/shm"])
  }

  predicate MayIoctl(path: string, f: Features) {
    path in ["/dev/ptmx", "/dev/pts"] || (f.sevSnp && path == "/dev/sev-guest")
  }

  /** The table's promise, rule by rule: which rules can hold each of the rights that matter, and that
      every mask keeps a right when cut down for a file. */
  predicate RuleOk(r: Rule, payload: string, f: Features) {
    && (Execute in r.access ==> MayExecute(r.path, payload, f))
    && (IoctlDev in r.access ==> MayIoctl(r.path, f))
    && MakeChar !in r.access && MakeBlock !in r.access
    && ReadFile in r.access
  }

  lemma ScratchOk(payload: string, f: Features)
    ensures forall r :: r in ScratchRules(f) ==> RuleOk(r, payload, f)
  {
    hide READ_WRITE, Scratch;
    Masks(f);
  }

  lemma SystemAndDevicesOk(payload: string, f: Features)
    ensures forall r :: r in SYSTEM_RULES ==> RuleOk(r, payload, f)
    ensures forall r :: r in DEVICE_RULES ==> RuleOk(r, payload, f)
  {
    hide READ, DEV_READ_WRITE, DEV_READ, MayExecute, MayIoctl;
    Masks(f);
  }

  lemma IoctlOk(payload: string, f: Features)
    ensures forall r :: r in PTY_RULES ==> RuleOk(r, payload, f)
    ensures forall r :: r in AttestationRules(f) ==> RuleOk(r, payload, f)
  {
    hide DEV_PTY, DEV_ATTESTATION, MayExecute;
    Masks(f);
  }

  lemma AllRulesOk(payload: string, extraRead: seq<string>, extraReadWrite: seq<string>, f: Features)
    ensures forall r :: r in AllRules(payload, extraRead, extraReadWrite, f) ==> RuleOk(r, payload, f)
  {
    hide READ, READ_EXEC, READ_WRITE, SYSTEM_RULES, DEVICE_RULES, PTY_RULES, AttestationRules, ScratchRules, MayIoctl;
    Masks(f);
    ScratchOk(payload, f);
    SystemAndDevicesOk(payload, f);
    IoctlOk(payload, f);
  }

  /** Such a mask, cut down for what it is put on, is one the kernel accepts. */
  lemma MaskedAccepted(a: Access, isDir: bool, abi: int)
    requires ReadFile in a && abi >= MIN_ABI
    ensures Acceptable(HandledAccessFs(abi), isDir, Masked(a, isDir))
  {
    AttrIsSeenWhole(abi);
    assert forall r :: r in Masked(a, isDir) ==> SinceAbi(r) <= abi;
  }

  /** The attribute structure the guest passes. */
  function Attr(abi: int): RulesetAttr {
    RulesetAttr(HandledAccessFs(abi), {}, if abi >= 6 then {AbstractUnixSocket, Signal} else {})
  }

  /** On every ABI the guest accepts, the kernel sees each field as it was written, governs every
      filesystem right it has, scopes everything it can scope, leaves the network to the firewall, and is
      asked for nothing it does not know. */
  lemma AttrIsSeenWhole(abi: int)
    requires abi >= MIN_ABI
    ensures ReadAttr(Attr(abi), RulesetAttrSize(abi)) == Attr(abi)
    ensures RulesetAttrSize(abi) <= KnownSize(abi)
    ensures forall r :: r in HandledAccessFs(abi) <==> SinceAbi(r) <= abi
    ensures forall s :: s in Attr(abi).scoped <==> abi >= 6
    ensures Attr(abi).handledNet == {}
  {
    forall s
      ensures s in Attr(abi).scoped <==> abi >= 6
    {
      match s case AbstractUnixSocket => case Signal =>
    }
  }

  /** One rule: skipped if optional and absent, fatal if required and absent, else put to the kernel
      with the rights its kind of object can have. */
  method AddRule(ruleset: KernelRuleset, rule: Rule, fs: FileSystem) returns (r: Outcome, ghost failed: bool)
    requires ReadFile in rule.access && ruleset.abi >= MIN_ABI && ruleset.attr.handledFs == HandledAccessFs(ruleset.abi)
    modifies ruleset
    ensures ruleset.rejected == old(ruleset.rejected)
    ensures r.Built? ==> ruleset.grants == old(ruleset.grants) + Grants([rule], fs)
    ensures r.Built? ==> rule.path in fs || rule.presence.Optional?
    ensures '\0' in rule.path || (rule.path !in fs && rule.presence.Required?) ==> r.Stopped?
    ensures r.Built? ==> !failed && ruleset.starved == old(ruleset.starved)
    ensures r.Stopped? ==>
      failed || '\0' in rule.path || (rule.path !in fs && rule.presence.Required?) || ruleset.rejected || ruleset.starved
    ensures old(ruleset.starved) ==> ruleset.starved
  {
    hide HandledAccessFs, Masked, Acceptable;
    assert [rule][..0] == [];
    failed := false;
    if '\0' in rule.path {
      return Stopped(NulInPath), failed;
    }
    if rule.path !in fs {
      return if rule.presence.Optional? then Built else Stopped(CannotOpen(rule.path)), failed;
    }
    var statFails: bool := *;
    if statFails {
      return Stopped(CannotStat), true;
    }
    var target := fs[rule.path];
    MaskedAccepted(rule.access, target.isDir, ruleset.abi);
    var ok := ruleset.AddRule(target, Masked(rule.access, target.isDir));
    r := if ok then Built else Stopped(CannotAdd);
  }

  lemma {:induction false} GrantsOneMore(rules: seq<Rule>, i: nat, fs: FileSystem)
    requires i < |rules|
    ensures Grants(rules[..i + 1], fs) == Grants(rules[..i], fs) + Grants([rules[i]], fs)
  {
    assert rules[..i + 1][..i] == rules[..i];
    assert [rules[i]][..0] == [];
  }

  /** The whole ruleset or a fatal stop, the latter only for a reason; and whatever paths are
      configured and whatever is on the filesystem, the kernel is never asked for anything it refuses
      on its merits. */
  method Build(payload: string, extraRead: seq<string>, extraReadWrite: seq<string>, f: Features,
               fs: FileSystem, abi: int) returns (r: Outcome, ruleset: KernelRuleset?, ghost failed: bool)
    ensures abi < MIN_ABI ==> r == Stopped(AbiTooOld)
    ensures ruleset != null ==> !ruleset.rejected && fresh(ruleset)
    ensures r.Built? ==>
      && ruleset != null
      && ruleset.attr == Attr(abi)
      && ruleset.grants == Grants(AllRules(payload, extraRead, extraReadWrite, f), fs)
    ensures r.Built? <==>
      abi >= MIN_ABI && Buildable(AllRules(payload, extraRead, extraReadWrite, f), fs) && !failed
  {
    hide HandledAccessFs, AllRules;
    ruleset := null;
    if abi < MIN_ABI {
      return Stopped(AbiTooOld), null, false;
    }
    AttrIsSeenWhole(abi);
    var creates: bool := *;
    if !creates {
      return Stopped(CannotCreate), null, true;
    }
    var kernel := new KernelRuleset(abi, Attr(abi), RulesetAttrSize(abi));
    var rules := AllRules(payload, extraRead, extraReadWrite, f);
    AllRulesOk(payload, extraRead, extraReadWrite, f);
    var i := 0;
    while i < |rules|
      invariant 0 <= i <= |rules| && fresh(kernel) && !kernel.rejected && !kernel.starved
      invariant kernel.grants == Grants(rules[..i], fs)
      invariant forall k :: 0 <= k < i ==> '\0' !in rules[k].path && (rules[k].presence == Required ==> rules[k].path in fs)
    {
      assert RuleOk(rules[i], payload, f);
      ghost var broke: bool;
      r, broke := AddRule(kernel, rules[i], fs);
      if r.Stopped? {
        return r, kernel, broke || kernel.starved;
      }
      GrantsOneMore(rules, i, fs);
      i := i + 1;
    }
    assert rules[..|rules|] == rules;
    r, ruleset, failed := Built, kernel, kernel.starved;
  }

  // ----- what the app can do, anywhere -------------------------------------------------------

  /** `r` grants `right` on `p`. */
  predicate Gives(r: Rule, fs: FileSystem, p: seq<string>, right: Right) {
    r.path in fs && fs[r.path].at <= p && right in Masked(r.access, fs[r.path].isDir)
  }

  /** A right is there on a path exactly if some rule whose object is that path, or above it, has it. */
  lemma {:induction false} RightsAreGiven(rules: seq<Rule>, fs: FileSystem, p: seq<string>, right: Right)
    ensures right in Rights(Grants(rules, fs), p) <==> exists r :: r in rules && Gives(r, fs, p, right)
  {
    hide Masked;
    if rules != [] {
      var before, last := rules[..|rules| - 1], rules[|rules| - 1];
      assert rules == before + [last];
      RightsAreGiven(before, fs, p, right);
      if last.path in fs {
        var grants, more := Grants(before, fs), Grant(fs[last.path].at, Masked(last.access, fs[last.path].isDir));
        assert (grants + [more])[..|grants|] == grants;
      } else {
        assert Grants(before, fs) + [] == Grants(before, fs);
      }
      assert last in rules;
    }
  }

  predicate Beneath(path: string, fs: FileSystem, p: seq<string>) {
    path in fs && fs[path].at <= p
  }

  /** In the default build a file can be executed exactly if it is in the payload, wherever the extra
      paths point and however the rules overlap; with write-execute allowed, at most the scratch
      directories join it. */
  lemma ExecuteOnlyInPayload(payload: string, extraRead: seq<string>, extraReadWrite: seq<string>, f: Features,
                             fs: FileSystem, p: seq<string>)
    ensures Beneath(payload, fs, p) ==> Execute in Rights(Grants(AllRules(payload, extraRead, extraReadWrite, f), fs), p)
    ensures Execute in Rights(Grants(AllRules(payload, extraRead, extraReadWrite, f), fs), p) ==>
      exists path :: MayExecute(path, payload, f) && Beneath(path, fs, p)
    ensures !f.allowWriteExecute ==>
      (Execute in Rights(Grants(AllRules(payload, extraRead, extraReadWrite, f), fs), p) <==> Beneath(payload, fs, p))
  {
    var rules := AllRules(payload, extraRead, extraReadWrite, f);
    PayloadRule(payload, extraRead, extraReadWrite, f);
    AllRulesOk(payload, extraRead, extraReadWrite, f);
    RightsAreGiven(rules, fs, p, Execute);
    hide AllRules, MayExecute;
    if Beneath(payload, fs, p) {
      assert Gives(Rule(payload, READ_EXEC, Required), fs, p, Execute);
    }
    if Execute in Rights(Grants(rules, fs), p) {
      var r :| r in rules && Gives(r, fs, p, Execute);
      assert RuleOk(r, payload, f) && Beneath(r.path, fs, p);
      DefaultBuild(r.path, payload, f);
    }
  }

  lemma DefaultBuild(path: string, payload: string, f: Features)
    requires MayExecute(path, payload, f)
    ensures !f.allowWriteExecute ==> path == payload
  {
  }

  lemma PayloadRule(payload: string, extraRead: seq<string>, extraReadWrite: seq<string>, f: Features)
    ensures Rule(payload, READ_EXEC, Required) in AllRules(payload, extraRead, extraReadWrite, f)
  {
    assert AllRules(payload, extraRead, extraReadWrite, f)[0] == Rule(payload, READ_EXEC, Required);
  }

  /** Device ioctls reach at most the pty devices and, on sev-snp, the attestation device; device nodes
      can be made nowhere. */
  lemma DevicesOnlyWhereListed(payload: string, extraRead: seq<string>, extraReadWrite: seq<string>, f: Features,
                               fs: FileSystem, p: seq<string>)
    ensures IoctlDev in Rights(Grants(AllRules(payload, extraRead, extraReadWrite, f), fs), p) ==>
      exists path :: MayIoctl(path, f) && Beneath(path, fs, p)
    ensures MakeChar !in Rights(Grants(AllRules(payload, extraRead, extraReadWrite, f), fs), p)
    ensures MakeBlock !in Rights(Grants(AllRules(payload, extraRead, extraReadWrite, f), fs), p)
  {
    var rules := AllRules(payload, extraRead, extraReadWrite, f);
    AllRulesOk(payload, extraRead, extraReadWrite, f);
    hide AllRules, MayIoctl;
    RightsAreGiven(rules, fs, p, IoctlDev);
    RightsAreGiven(rules, fs, p, MakeChar);
    RightsAreGiven(rules, fs, p, MakeBlock);
    if IoctlDev in Rights(Grants(rules, fs), p) {
      var r :| r in rules && Gives(r, fs, p, IoctlDev);
      assert RuleOk(r, payload, f) && Beneath(r.path, fs, p);
    }
  }

  /** The paths the table gives write access to: the scratch directories, the devices that are written
      to, and the configured read-write paths. */
  predicate MayWrite(path: string, extraReadWrite: seq<string>, f: Features) {
    || path in ["/tmp", "/var", "/var/tmp", "/run", "/dev/shm"]
    || path in ["/dev/null", "/dev/zero", "/dev/full", "/dev/ptmx", "/dev/pts"]
    || (f.sevSnp && path == "/dev/sev-guest")
    || path in extraReadWrite
  }

  /** The paths the table gives read access to: those, and what can only be read. */
  predicate MayRead(path: string, payload: string, extraRead: seq<string>, extraReadWrite: seq<string>, f: Features) {
    || MayWrite(path, extraReadWrite, f)
    || path == payload || path in ["/etc", "/proc", "/sys/devices/system/cpu", "/dev/random", "/dev/urandom"]
    || path in extraRead
  }

  lemma WriteMasks(f: Features)
    ensures WriteFile in READ_WRITE && WriteFile in Scratch(f)
    ensures WriteFile in DEV_READ_WRITE && WriteFile in DEV_PTY && WriteFile in DEV_ATTESTATION
    ensures WriteFile !in READ && WriteFile !in READ_EXEC && WriteFile !in DEV_READ
  {
  }

  /** A rule gives write access exactly if its path is on the list of its kind. */
  predicate Writes(r: Rule, paths: seq<string>) {
    r.path in paths <==> WriteFile in r.access
  }

  lemma ScratchWrites(f: Features)
    ensures forall r :: r in ScratchRules(f) ==>
      r.path in ["/tmp", "/var", "/var/tmp", "/run", "/dev/shm"] && WriteFile in r.access
    ensures forall path :: path in ["/tmp", "/var", "/var/tmp", "/run", "/dev/shm"] ==>
      exists r :: r in ScratchRules(f) && r.path == path
  {
    hide READ_WRITE, Scratch;
    WriteMasks(f);
    var rules := ScratchRules(f);
    assert rules[0].path == "/tmp" && rules[1].path == "/var" && rules[2].path == "/var/tmp";
    assert rules[3].path == "/run" && rules[4].path == "/dev/shm";
  }

  lemma DevicesWrite(f: Features)
    ensures forall r :: r in DEVICE_RULES ==> Writes(r, ["/dev/null", "/dev/zero", "/dev/full"])
    ensures forall r :: r in DEVICE_RULES ==>
      r.path in ["/dev/null", "/dev/zero", "/dev/full", "/dev/random", "/dev/urandom"]
    ensures Rule("/dev/null", DEV_READ_WRITE, Optional) in DEVICE_RULES
    ensures Rule("/dev/zero", DEV_READ_WRITE, Optional) in DEVICE_RULES
    ensures Rule("/dev/full", DEV_READ_WRITE, Optional) in DEVICE_RULES
    ensures Rule("/dev/random", DEV_READ, Optional) in DEVICE_RULES
    ensures Rule("/dev/urandom", DEV_READ, Optional) in DEVICE_RULES
  {
    hide DEV_READ_WRITE, DEV_READ;
    WriteMasks(f);
    var rules := DEVICE_RULES;
    assert rules[0] == Rule("/dev/null", DEV_READ_WRITE, Optional);
    assert rules[1] == Rule("/dev/zero", DEV_READ_WRITE, Optional);
    assert rules[2] == Rule("/dev/full", DEV_READ_WRITE, Optional);
    assert rules[3] == Rule("/dev/random", DEV_READ, Optional);
    assert rules[4] == Rule("/dev/urandom", DEV_READ, Optional);
  }

  lemma PtysWrite(f: Features)
    ensures forall r :: r in PTY_RULES ==> Writes(r, ["/dev/ptmx", "/dev/pts"])
    ensures forall r :: r in PTY_RULES ==> r.path in ["/dev/ptmx", "/dev/pts"]
    ensures exists r :: r in PTY_RULES && r.path == "/dev/ptmx"
    ensures exists r :: r in PTY_RULES && r.path == "/dev/pts"
    ensures forall r :: r in AttestationRules(f) ==> f.sevSnp && r.path == "/dev/sev-guest" && WriteFile in r.access
    ensures f.sevSnp ==> exists r :: r in AttestationRules(f) && r.path == "/dev/sev-guest"
  {
    hide DEV_PTY, DEV_ATTESTATION;
    WriteMasks(f);
    var rules := PTY_RULES;
    assert rules[0].path == "/dev/ptmx" && rules[1].path == "/dev/pts";
    assert f.sevSnp ==> AttestationRules(f)[0].path == "/dev/sev-guest";
  }

  lemma SystemReads(f: Features)
    ensures forall r :: r in SYSTEM_RULES ==> WriteFile !in r.access
    ensures forall r :: r in SYSTEM_RULES ==> r.path in ["/etc", "/proc", "/sys/devices/system/cpu"]
    ensures exists r :: r in SYSTEM_RULES && r.path == "/etc"
    ensures exists r :: r in SYSTEM_RULES && r.path == "/proc"
    ensures exists r :: r in SYSTEM_RULES && r.path == "/sys/devices/system/cpu"
  {
    hide READ;
    WriteMasks(f);
    var rules := SYSTEM_RULES;
    assert rules[0].path == "/etc" && rules[1].path == "/proc" && rules[2].path == "/sys/devices/system/cpu";
  }

  lemma ExtrasWrite(paths: seq<string>, access: Access)
    ensures forall r :: r in Extra(paths, access) ==> r.path in paths && r.access == access
    ensures forall path :: path in paths ==> exists r :: r in Extra(paths, access) && r.path == path
  {
    var rules := Extra(paths, access);
    forall path | path in paths
      ensures exists r :: r in rules && r.path == path
    {
      var i :| 0 <= i < |paths| && paths[i] == path;
      assert rules[i] in rules && rules[i].path == path;
    }
  }

  /** Which rule of the whole table comes from where. */
  lemma TableParts(payload: string, extraRead: seq<string>, extraReadWrite: seq<string>, f: Features, r: Rule)
    ensures r in AllRules(payload, extraRead, extraReadWrite, f) <==>
      || r == Rule(payload, READ_EXEC, Required) || r in ScratchRules(f) || r in SYSTEM_RULES || r in DEVICE_RULES
      || r in PTY_RULES || r in AttestationRules(f) || r in Extra(extraRead, READ) || r in Extra(extraReadWrite, READ_WRITE)
  {
    hide READ_EXEC, READ, READ_WRITE, ScratchRules, SYSTEM_RULES, DEVICE_RULES, PTY_RULES, AttestationRules, Extra;
  }

  lemma TableWrites(payload: string, extraRead: seq<string>, extraReadWrite: seq<string>, f: Features, r: Rule)
    requires r in AllRules(payload, extraRead, extraReadWrite, f)
    ensures WriteFile in r.access ==> MayWrite(r.path, extraReadWrite, f)
    ensures MayRead(r.path, payload, extraRead, extraReadWrite, f)
  {
    TableParts(payload, extraRead, extraReadWrite, f, r);
    hide AllRules, READ_EXEC, READ, READ_WRITE, ScratchRules, SYSTEM_RULES, DEVICE_RULES, PTY_RULES, AttestationRules;
    hide Extra;
    WriteMasks(f);
    if r in ScratchRules(f) {
      ScratchWrites(f);
    } else if r in DEVICE_RULES {
      DevicesWrite(f);
    } else if r in PTY_RULES || r in AttestationRules(f) {
      PtysWrite(f);
    } else if r in SYSTEM_RULES {
      SystemReads(f);
    } else {
      ExtrasWrite(extraRead, READ);
      ExtrasWrite(extraReadWrite, READ_WRITE);
    }
  }

  lemma RuleFor(payload: string, extraRead: seq<string>, extraReadWrite: seq<string>, f: Features, path: string)
      returns (r: Rule)
    requires MayRead(path, payload, extraRead, extraReadWrite, f)
    ensures r in AllRules(payload, extraRead, extraReadWrite, f) && r.path == path
    ensures MayWrite(path, extraReadWrite, f) ==> WriteFile in r.access
  {
    hide READ_EXEC, READ, READ_WRITE, ScratchRules, SYSTEM_RULES, DEVICE_RULES, PTY_RULES, AttestationRules, Extra;
    hide AllRules;
    WriteMasks(f);
    ScratchWrites(f);
    DevicesWrite(f);
    PtysWrite(f);
    SystemReads(f);
    ExtrasWrite(extraRead, READ);
    ExtrasWrite(extraReadWrite, READ_WRITE);
    if path in extraReadWrite {
      r :| r in Extra(extraReadWrite, READ_WRITE) && r.path == path;
    } else if path in ["/tmp", "/var", "/var/tmp", "/run", "/dev/shm"] {
      r :| r in ScratchRules(f) && r.path == path;
    } else if path in ["/dev/null", "/dev/zero", "/dev/full"] {
      r := Rule(path, DEV_READ_WRITE, Optional);
    } else if path in ["/dev/ptmx", "/dev/pts"] {
      r :| r in PTY_RULES && r.path == path;
    } else if f.sevSnp && path == "/dev/sev-guest" {
      r :| r in AttestationRules(f) && r.path == path;
    } else if path == payload {
      r := Rule(payload, READ_EXEC, Required);
    } else if path in extraRead {
      r :| r in Extra(extraRead, READ) && r.path == path;
    } else if path in ["/dev/random", "/dev/urandom"] {
      r := Rule(path, DEV_READ, Optional);
    } else {
      r :| r in SYSTEM_RULES && r.path == path;
    }
    TableParts(payload, extraRead, extraReadWrite, f, r);
  }

  /** Over all files: the app can write exactly beneath the paths meant to be written, and read exactly
      beneath those and the paths meant to be read; a configured read path adds no writing. */
  lemma AccessIsAsListed(payload: string, extraRead: seq<string>, extraReadWrite: seq<string>, f: Features,
                         fs: FileSystem, p: seq<string>)
    ensures var rights := Rights(Grants(AllRules(payload, extraRead, extraReadWrite, f), fs), p);
      && (WriteFile in rights <==> exists path :: MayWrite(path, extraReadWrite, f) && Beneath(path, fs, p))
      && (ReadFile in rights <==>
            exists path :: MayRead(path, payload, extraRead, extraReadWrite, f) && Beneath(path, fs, p))
  {
    hide AllRules, MayWrite, MayRead;
    var rules := AllRules(payload, extraRead, extraReadWrite, f);
    var rights := Rights(Grants(rules, fs), p);
    AllRulesOk(payload, extraRead, extraReadWrite, f);
    RightsAreGiven(rules, fs, p, WriteFile);
    RightsAreGiven(rules, fs, p, ReadFile);
    WritersRead(extraReadWrite, f, payload, extraRead);
    if r :| r in rules && Gives(r, fs, p, WriteFile) {
      TableWrites(payload, extraRead, extraReadWrite, f, r);
      assert MayWrite(r.path, extraReadWrite, f) && Beneath(r.path, fs, p);
    }
    if r :| r in rules && Gives(r, fs, p, ReadFile) {
      TableWrites(payload, extraRead, extraReadWrite, f, r);
      assert MayRead(r.path, payload, extraRead, extraReadWrite, f) && Beneath(r.path, fs, p);
    }
    if path :| MayWrite(path, extraReadWrite, f) && Beneath(path, fs, p) {
      var r := RuleFor(payload, extraRead, extraReadWrite, f, path);
      assert Gives(r, fs, p, WriteFile);
    }
    if path :| MayRead(path, payload, extraRead, extraReadWrite, f) && Beneath(path, fs, p) {
      var r := RuleFor(payload, extraRead, extraReadWrite, f, path);
      assert RuleOk(r, payload, f);
      assert Gives(r, fs, p, ReadFile);
    }
  }

  lemma WritersRead(extraReadWrite: seq<string>, f: Features, payload: string, extraRead: seq<string>)
    ensures forall path :: MayWrite(path, extraReadWrite, f) ==> MayRead(path, payload, extraRead, extraReadWrite, f)
  {
  }

  /** A configured read-write directory gives everything an app does with files of its own; a configured
      read directory gives reading and listing. */
  lemma ExtrasGive(payload: string, extraRead: seq<string>, extraReadWrite: seq<string>, f: Features,
                   fs: FileSystem, p: seq<string>, path: string)
    requires Beneath(path, fs, p) && fs[path].isDir
    ensures var rights := Rights(Grants(AllRules(payload, extraRead, extraReadWrite, f), fs), p);
      && (path in extraReadWrite ==>
            {ReadFile, ReadDir, WriteFile, Truncate, RemoveDir, RemoveFile, MakeDir, MakeReg, MakeSock, MakeFifo,
             MakeSym, Refer} <= rights)
      && (path in extraRead ==> {ReadFile, ReadDir} <= rights)
  {
    var rules := AllRules(payload, extraRead, extraReadWrite, f);
    var rights := Rights(Grants(rules, fs), p);
    if path in extraReadWrite {
      var r := Rule(path, READ_WRITE, Required);
      InExtra(extraReadWrite, READ_WRITE, path);
      TableParts(payload, extraRead, extraReadWrite, f, r);
      RuleGivesAll(rules, fs, p, r);
    }
    if path in extraRead {
      var r := Rule(path, READ, Required);
      InExtra(extraRead, READ, path);
      TableParts(payload, extraRead, extraReadWrite, f, r);
      RuleGivesAll(rules, fs, p, r);
    }
  }

  lemma InExtra(paths: seq<string>, access: Access, path: string)
    requires path in paths
    ensures Rule(path, access, Required) in Extra(paths, access)
  {
    var i :| 0 <= i < |paths| && paths[i] == path;
    assert Extra(paths, access)[i] == Rule(path, access, Required);
  }

  lemma RuleGivesAll(rules: seq<Rule>, fs: FileSystem, p: seq<string>, r: Rule)
    requires r in rules && Beneath(r.path, fs, p) && fs[r.path].isDir
    ensures r.access <= Rights(Grants(rules, fs), p)
  {
    forall right | right in r.access
      ensures right in Rights(Grants(rules, fs), p)
    {
      assert Gives(r, fs, p, right);
      RightsAreGiven(rules, fs, p, right);
    }
  }

  /** Cutting a mask down for a file takes away the rights only a directory can have, and no other. */
  lemma MaskedExactly(access: Access, isDir: bool, right: Right)
    ensures right in Masked(access, isDir) <==> right in access && (isDir || !DirOnly(right))
  {
  }

  /** The paths a missing one of which stops the boot. */
  predicate MustExist(path: string, payload: string, extraRead: seq<string>, extraReadWrite: seq<string>) {
    || path == payload || path == "/proc" || path in ["/tmp", "/var", "/var/tmp", "/run", "/dev/shm"]
    || path in extraRead || path in extraReadWrite
  }

  lemma ScratchRequired(f: Features)
    ensures forall r :: r in ScratchRules(f) ==> r.presence == Required
  {
    hide READ_WRITE, Scratch;
  }

  lemma SystemRequired()
    ensures forall r :: r in SYSTEM_RULES && r.presence == Required ==> r.path == "/proc"
    ensures Rule("/proc", READ, Required) in SYSTEM_RULES
  {
    hide READ;
    assert SYSTEM_RULES[1] == Rule("/proc", READ, Required);
  }

  lemma DevicesOptional(f: Features)
    ensures forall r :: r in DEVICE_RULES ==> r.presence == Optional
    ensures forall r :: r in PTY_RULES ==> r.presence == Optional
    ensures forall r :: r in AttestationRules(f) ==> r.presence == Optional
  {
    hide DEV_READ, DEV_READ_WRITE, DEV_PTY, DEV_ATTESTATION;
  }

  lemma RequiredListed(payload: string, extraRead: seq<string>, extraReadWrite: seq<string>, f: Features, r: Rule)
    requires r in AllRules(payload, extraRead, extraReadWrite, f) && r.presence == Required
    ensures MustExist(r.path, payload, extraRead, extraReadWrite)
  {
    TableParts(payload, extraRead, extraReadWrite, f, r);
    hide AllRules, READ_EXEC, READ, READ_WRITE, ScratchRules, SYSTEM_RULES, DEVICE_RULES, PTY_RULES, AttestationRules;
    hide Extra;
    DevicesOptional(f);
    if r in ScratchRules(f) {
      ScratchWrites(f);
    } else if r in SYSTEM_RULES {
      SystemRequired();
    } else {
      ExtrasWrite(extraRead, READ);
      ExtrasWrite(extraReadWrite, READ_WRITE);
    }
  }

  lemma RequiredRule(payload: string, extraRead: seq<string>, extraReadWrite: seq<string>, f: Features, path: string)
      returns (r: Rule)
    requires MustExist(path, payload, extraRead, extraReadWrite)
    ensures r in AllRules(payload, extraRead, extraReadWrite, f) && r.path == path && r.presence == Required
  {
    hide AllRules, READ_EXEC, READ, READ_WRITE, ScratchRules, SYSTEM_RULES, DEVICE_RULES, PTY_RULES, AttestationRules;
    hide Extra;
    if path == payload {
      r := Rule(payload, READ_EXEC, Required);
    } else if path == "/proc" {
      SystemRequired();
      r := Rule("/proc", READ, Required);
    } else if path in extraRead {
      InExtra(extraRead, READ, path);
      r := Rule(path, READ, Required);
    } else if path in extraReadWrite {
      InExtra(extraReadWrite, READ_WRITE, path);
      r := Rule(path, READ_WRITE, Required);
    } else {
      ScratchWrites(f);
      ScratchRequired(f);
      r :| r in ScratchRules(f) && r.path == path;
    }
    TableParts(payload, extraRead, extraReadWrite, f, r);
  }

  /** What has to be there for the ruleset to be built: the payload, the scratch directories, `/proc` and
      every configured path; the rest of the table may be missing. */
  lemma RequiredPaths(payload: string, extraRead: seq<string>, extraReadWrite: seq<string>, f: Features, fs: FileSystem)
    ensures RequiredOpen(AllRules(payload, extraRead, extraReadWrite, f), fs) <==>
      forall path :: MustExist(path, payload, extraRead, extraReadWrite) ==> path in fs
  {
    hide AllRules, MustExist;
    var rules := AllRules(payload, extraRead, extraReadWrite, f);
    forall r | r in rules && r.presence == Required
      ensures MustExist(r.path, payload, extraRead, extraReadWrite)
    {
      RequiredListed(payload, extraRead, extraReadWrite, f, r);
    }
    if RequiredOpen(rules, fs) {
      forall path | MustExist(path, payload, extraRead, extraReadWrite)
        ensures path in fs
      {
        var r := RequiredRule(payload, extraRead, extraReadWrite, f, path);
      }
    }
  }

  predicate Related(a: seq<string>, b: seq<string>) {
    a <= b || b <= a
  }

  /** In the default build no file can be both written and executed, unless some rule that grants
      writing is on a directory above the payload or below it. */
  lemma WriteOrExecute(payload: string, extraRead: seq<string>, extraReadWrite: seq<string>, f: Features,
                       fs: FileSystem, p: seq<string>)
    requires !f.allowWriteExecute
    ensures var rules := AllRules(payload, extraRead, extraReadWrite, f);
      Execute in Rights(Grants(rules, fs), p) && WriteFile in Rights(Grants(rules, fs), p) ==>
        payload in fs && exists r :: r in rules && r.path in fs && WriteFile in r.access
                                     && Related(fs[r.path].at, fs[payload].at)
  {
    var rules := AllRules(payload, extraRead, extraReadWrite, f);
    ExecuteOnlyInPayload(payload, extraRead, extraReadWrite, f, fs, p);
    RightsAreGiven(rules, fs, p, WriteFile);
    hide AllRules;
    if Execute in Rights(Grants(rules, fs), p) && WriteFile in Rights(Grants(rules, fs), p) {
      var r :| r in rules && Gives(r, fs, p, WriteFile);
      assert WriteFile in r.access && Related(fs[r.path].at, fs[payload].at);
    }
  }
}
