/** The firewall all the way: from the configuration through the generated script, the shell that runs
    it and the build that bakes its variables in, to the verdict on a packet. */
module EndToEnd {
  import opened Boot
  import opened BuildScript
  import opened FirewallConfig
  import opened FirewallTheorem
  import opened GuestEnv
  import opened GuestInit
  import opened Seccomp
  import opened ShellScript
  import opened Text
  import opened Wrappers
  import Builder = BatchBuilder
  import L = Landlock

  /** For every configuration the host accepts, as long as no exported string holds a line break: the
      script it writes runs, the build script that finds that environment bakes the guest's variables,
      and what the guest compiles out of the one for its rules enforces the configured entries and
      nothing else. */
  method ConfigToPolicy(c: GuestConfig, ipv6: bool)
      returns (script: string, r: Result<Builder.Batch, InstallError>)
    requires Validates(c) && c.firewall.enabled && forall v :: !Breaks(c, v)
    ensures RunScript(script, map[]).Ok? && Baked(RunScript(script, map[]).value).Some?
    ensures var baked := Baked(RunScript(script, map[]).value).value;
      NameOf(FirewallRules) in baked && r == Compiled(baked[NameOf(FirewallRules)], TableFamily(ipv6))
    ensures forall i :: 0 <= i < |c.firewall.inbound| ==> ValidEntry(c.firewall.inbound[i])
    ensures Enforces(r, c.firewall.inbound, ipv6)
  {
    hide Validates, Breaks, Baked, Environment, Enforces, ParseRules, RunScript, NameOf, Compiled, Exports;
    var writer := new ScriptWriter();
    AppEnvExports(c, writer);
    script := writer.text;
    assert [] + Exports(c, SCRIPT_ORDER) == Exports(c, SCRIPT_ORDER);
    ExportsRun(c);
    RulesReach(c);
    var env := RunScript(script, map[]).value;
    r := CompileEntries(Baked(env).value[NameOf(FirewallRules)], c.firewall.inbound, ipv6);
  }

  // ----- from the configuration to the app ---------------------------------------------------

  /** The configuration's numbers are of the types the host reads them as. */
  predicate Typed(c: GuestConfig) {
    && c.uid < U32_SIZE && c.gid < U32_SIZE
    && c.maxOpenFiles < U64_SIZE && c.maxProcesses < U64_SIZE
    && c.maxMemoryMb < U64_SIZE && c.maxLockedMemoryMb < U64_SIZE
    && c.tmpMb < U64_SIZE && c.runMb < U64_SIZE && c.shmMb < U64_SIZE && c.varTmpMb < U64_SIZE
  }

  predicate TakesIds(c: GuestConfig) {
    c.uid != U32_SIZE - 1 && c.gid != U32_SIZE - 1
  }

  predicate TakesLimits(c: GuestConfig) {
    c.maxMemoryMb * MIB < U64_SIZE && c.maxLockedMemoryMb * MIB < U64_SIZE
  }

  /** What the guest asks of the numbers and the host does not: ids other than the reserved one, and
      sizes that can be expressed in bytes. */
  predicate GuestTakes(c: GuestConfig) {
    TakesIds(c) && TakesLimits(c)
  }

  predicate Complete(baked: map<string, string>) {
    forall v :: NameOf(v) in baked
  }

  function StringsOf(baked: map<string, string>): Strings
    requires Complete(baked)
  {
    Strings(baked[NameOf(PayloadDir)], baked[NameOf(AppUid)], baked[NameOf(AppGid)], baked[NameOf(AppEnv)],
            baked[NameOf(ExtraSysctls)], baked[NameOf(FirewallRules)], baked[NameOf(LandlockRo)],
            baked[NameOf(LandlockRw)], baked[NameOf(LimitNofile)], baked[NameOf(LimitNproc)],
            baked[NameOf(LimitAsMb)], baked[NameOf(LimitMemlockMb)], baked[NameOf(TmpfsTmpMb)],
            baked[NameOf(TmpfsRunMb)], baked[NameOf(TmpfsShmMb)], baked[NameOf(TmpfsVarTmpMb)])
  }

  function LimitsConfigured(c: GuestConfig): ResourceLimits {
    ResourceLimits(c.maxOpenFiles, c.maxProcesses, c.maxLockedMemoryMb * MIB, c.maxMemoryMb * MIB)
  }

  /** The table with the configured paths in it. */
  function RulesConfigured(c: GuestConfig, f: Features): seq<L.Rule> {
    L.AllRules("/payload", NonEmpty(c.extraReadPaths), NonEmpty(c.extraReadWritePaths), LandlockFeatures(f))
  }

  function RulesetConfigured(c: GuestConfig, f: Features, fs: L.FileSystem): Option<seq<L.Grant>> {
    if f.landlock then Some(L.Grants(RulesConfigured(c, f), fs)) else None
  }

  /** The process is the configured app: its ids, its limits, its environment, and the confinement the
      image has for it, with the configured paths. */
  ghost predicate RunsAs(p: Process, c: GuestConfig, f: Features, w: World)
    reads p
  {
    && Confined(p, c.uid, c.gid, LimitsConfigured(c), f, RulesetConfigured(c, f, w.fs),
                BaselineDenylist(f.allowWriteExecute, w.elsewhere))
    && HoldsPairs(p.environ, c.env)
  }

  lemma NumberParses(raw: string, n: nat, size: nat)
    requires IsNumber(raw, n)
    ensures ParseUnsigned(raw, size) == if n < size then Some(n) else None
  {
    DigitsOnly(raw);
  }

  lemma {:induction false} JoinHas(parts: seq<string>, i: nat, x: char)
    requires i < |parts| && x in parts[i]
    ensures x in Join(parts, ';')
  {
    if |parts| > 1 && i > 0 {
      JoinHas(parts[1..], i - 1, x);
    }
  }

  lemma EnvIsNulFree(pairs: seq<Pair>)
    requires pairs == [] || '\0' !in EncodeKvPairs(pairs)
    ensures NulFree(pairs)
  {
    forall i | 0 <= i < |pairs|
      ensures '\0' !in pairs[i].0 && '\0' !in pairs[i].1
    {
      if '\0' in pairs[i].0 || '\0' in pairs[i].1 {
        JoinHas(KvEntries(pairs), i, '\0');
      }
    }
  }

  lemma IdsRead(c: GuestConfig, s: Strings)
    requires Typed(c) && Validates(c) && Arrives(c, AppUid, s.appUid) && Arrives(c, AppGid, s.appGid)
    ensures AppIds(s) == if TakesIds(c) then Some((c.uid, c.gid)) else None
  {
    hide ParseUnsigned, ValidateKvEncoding, ValidateListEncoding, ValidateFirewall;
    NumberParses(s.appUid, c.uid, U32_SIZE);
    NumberParses(s.appGid, c.gid, U32_SIZE);
  }

  lemma LimitsRead(c: GuestConfig, s: Strings)
    requires Typed(c)
    requires Arrives(c, LimitNofile, s.limitNofile) && Arrives(c, LimitNproc, s.limitNproc)
    requires Arrives(c, LimitAsMb, s.limitAsMb) && Arrives(c, LimitMemlockMb, s.limitMemlockMb)
    ensures LimitsOf(s) == if TakesLimits(c) then Some(LimitsConfigured(c)) else None
  {
    hide ParseUnsigned;
    NumberParses(s.limitNofile, c.maxOpenFiles, U64_SIZE);
    NumberParses(s.limitNproc, c.maxProcesses, U64_SIZE);
    NumberParses(s.limitAsMb, c.maxMemoryMb, U64_SIZE);
    NumberParses(s.limitMemlockMb, c.maxLockedMemoryMb, U64_SIZE);
  }

  lemma SizesRead(c: GuestConfig, s: Strings)
    requires Typed(c)
    requires Arrives(c, TmpfsTmpMb, s.tmpMb) && Arrives(c, TmpfsRunMb, s.runMb)
    requires Arrives(c, TmpfsShmMb, s.shmMb) && Arrives(c, TmpfsVarTmpMb, s.varTmpMb)
    ensures SizesUsable(s)
  {
    hide ParseUnsigned;
    NumberParses(s.tmpMb, c.tmpMb, U64_SIZE);
    NumberParses(s.runMb, c.runMb, U64_SIZE);
    NumberParses(s.shmMb, c.shmMb, U64_SIZE);
    NumberParses(s.varTmpMb, c.varTmpMb, U64_SIZE);
  }

  lemma ListsRead(c: GuestConfig, s: Strings)
    requires Arrives(c, AppEnv, s.appEnv) && Arrives(c, ExtraSysctls, s.extraSysctls) && Fits(c, AppEnv)
    requires Arrives(c, FirewallRules, s.firewallRules)
    ensures ParsePairs(s.appEnv) == Some(c.env) && NulFree(c.env) && ParsePairs(s.extraSysctls).Some?
    ensures c.firewall.enabled ==> ParseRules(s.firewallRules).Some?
  {
    hide ParsePairs, ParseRules, EncodeKvPairs, NulFree, DenotesAll, TrimEnd;
    EnvIsNulFree(c.env);
  }

  lemma PathsRead(c: GuestConfig, f: Features, s: Strings)
    requires c.landlock && Arrives(c, PayloadDir, s.payloadDir)
    requires Arrives(c, LandlockRo, s.landlockRo) && Arrives(c, LandlockRw, s.landlockRw)
    ensures AppRules(s, f) == RulesConfigured(c, f)
  {
    hide L.AllRules, ParsePathList, NonEmpty;
  }

  /** The features the host compiles the guest with, as far as they follow from the same parts of the
      configuration. */
  predicate FeaturesOf(c: GuestConfig, f: Features) {
    && f.firewall == (c.firewall.enabled && c.hasNetwork)
    && f.landlock == c.landlock
  }

  /** The guest built from the configuration has these constants. */
  predicate BuiltWith(c: GuestConfig, s: Strings) {
    Built(c).Some? && Complete(Built(c).value) && s == StringsOf(Built(c).value)
  }

  predicate AllArrive(c: GuestConfig, s: Strings) {
    && Arrives(c, AppUid, s.appUid) && Arrives(c, AppGid, s.appGid)
    && Arrives(c, AppEnv, s.appEnv) && Arrives(c, ExtraSysctls, s.extraSysctls)
    && Arrives(c, FirewallRules, s.firewallRules) && Arrives(c, PayloadDir, s.payloadDir)
    && Arrives(c, LandlockRo, s.landlockRo) && Arrives(c, LandlockRw, s.landlockRw)
    && Arrives(c, LimitNofile, s.limitNofile) && Arrives(c, LimitNproc, s.limitNproc)
    && Arrives(c, LimitAsMb, s.limitAsMb) && Arrives(c, LimitMemlockMb, s.limitMemlockMb)
    && Arrives(c, TmpfsTmpMb, s.tmpMb) && Arrives(c, TmpfsRunMb, s.runMb)
    && Arrives(c, TmpfsShmMb, s.shmMb) && Arrives(c, TmpfsVarTmpMb, s.varTmpMb)
  }

  lemma GetsBuilt(c: GuestConfig)
    requires Validates(c) && forall v :: Fits(c, v)
    ensures Built(c).Some? && Complete(Built(c).value)
  {
    hide Validates, Fits, Arrives, NameOf, Built;
    ConfigReachesGuest(c);
  }

  lemma ConstantsArrive(c: GuestConfig, s: Strings)
    requires Validates(c) && BuiltWith(c, s) && forall v :: Fits(c, v)
    ensures AllArrive(c, s)
  {
    hide Validates, Fits, Arrives, NameOf, Built;
    ConfigReachesGuest(c);
  }

  /** The two sides agree on every accepted configuration that arrives, the reserved id and the sizes
      beyond a byte count aside: the guest takes every constant it was built with if and only if these
      are avoided, and it then holds what was configured. */
  lemma SidesAgreeOnConstants(c: GuestConfig, f: Features, s: Strings)
    requires Validates(c) && Typed(c) && FeaturesOf(c, f) && BuiltWith(c, s) && forall v :: Fits(c, v)
    ensures Usable(s, f) <==> GuestTakes(c)
    ensures ParsePairs(s.appEnv) == Some(c.env)
    ensures GuestTakes(c) ==> AppIds(s) == Some((c.uid, c.gid)) && LimitsOf(s) == Some(LimitsConfigured(c))
    ensures f.landlock ==> AppRules(s, f) == RulesConfigured(c, f)
  {
    ConstantsArrive(c, s);
    if f.landlock {
      PathsRead(c, f, s);
    }
    hide Arrives, BuiltWith, ParsePairs, ParseRules, AppIds, LimitsOf, SizesUsable, NulFree, Fits, Validates, Typed;
    hide LimitsConfigured, TakesIds, TakesLimits, AppRules, RulesConfigured;
    IdsRead(c, s);
    LimitsRead(c, s);
    SizesRead(c, s);
    ListsRead(c, s);
  }

  lemma RulesConstant(c: GuestConfig, s: Strings)
    requires Validates(c) && BuiltWith(c, s) && forall v :: Fits(c, v)
    ensures Arrives(c, FirewallRules, s.firewallRules)
  {
    hide BuiltWith, Fits, Validates, Arrives;
    ConstantsArrive(c, s);
  }

  lemma RulesArrive(c: GuestConfig, s: Strings)
    requires Validates(c) && BuiltWith(c, s) && c.firewall.enabled && forall v :: Fits(c, v)
    ensures forall i :: 0 <= i < |c.firewall.inbound| ==> ValidEntry(c.firewall.inbound[i])
    ensures ParseRules(s.firewallRules) == Some(DenotesAll(c.firewall.inbound))
  {
    hide BuiltWith, ParseRules, DenotesAll, ValidEntry, Fits, Validates, Arrives;
    RulesConstant(c, s);
    RulesUnderstood(c, s.firewallRules);
  }

  /** What the configured paths let the app do, file by file: it writes exactly beneath the table's
      writable paths and the configured read-write ones, so not beneath a path only configured for
      reading, which it can read; and in the default build it executes exactly the payload. */
  lemma ConfiguredAccess(c: GuestConfig, f: Features, fs: L.FileSystem, p: seq<string>)
    requires f.landlock
    ensures var rights, lf := L.Rights(RulesetConfigured(c, f, fs).value, p), L.Features(f.allowWriteExecute, f.sevSnp);
      var rw := NonEmpty(c.extraReadWritePaths);
      && (L.WriteFile in rights <==> exists path :: L.MayWrite(path, rw, lf) && L.Beneath(path, fs, p))
      && (forall path :: path in c.extraReadPaths && path != "" && L.Beneath(path, fs, p) ==> L.ReadFile in rights)
      && (forall path :: path in c.extraReadWritePaths && path != "" && L.Beneath(path, fs, p) ==> L.WriteFile in rights)
      && (!f.allowWriteExecute ==> (L.Execute in rights <==> L.Beneath("/payload", fs, p)))
  {
    hide L.AllRules, L.MayWrite, L.MayRead, NonEmpty;
    var ro, rw, lf := NonEmpty(c.extraReadPaths), NonEmpty(c.extraReadWritePaths), LandlockFeatures(f);
    L.ExecuteOnlyInPayload("/payload", ro, rw, lf, fs, p);
    L.AccessIsAsListed("/payload", ro, rw, lf, fs, p);
    forall path | path in c.extraReadPaths && path != "" && L.Beneath(path, fs, p)
      ensures L.MayRead(path, "/payload", ro, rw, lf)
    {
      NonEmptyHas(c.extraReadPaths, path);
      ExtrasMay(path, ro, rw, lf);
    }
    forall path | path in c.extraReadWritePaths && path != "" && L.Beneath(path, fs, p)
      ensures L.MayWrite(path, rw, lf)
    {
      NonEmptyHas(c.extraReadWritePaths, path);
      ExtrasMay(path, ro, rw, lf);
    }
  }

  lemma ExtrasMay(path: string, ro: seq<string>, rw: seq<string>, lf: L.Features)
    ensures path in ro ==> L.MayRead(path, "/payload", ro, rw, lf)
    ensures path in rw ==> L.MayWrite(path, rw, lf)
  {
  }

  lemma NonEmptyHas(parts: seq<string>, part: string)
    requires part in parts && part != ""
    ensures part in NonEmpty(parts)
  {
    var i :| 0 <= i < |parts| && parts[i] == part;
    NonEmptyKeeps(parts, i);
  }

  /** The script runs, and a guest built in the environment it leaves has these constants. */
  predicate BuiltBy(script: string, s: Strings) {
    && RunScript(script, map[]).Ok?
    && var baked := Baked(RunScript(script, map[]).value);
       baked.Some? && Complete(baked.value) && s == StringsOf(baked.value)
  }

  /** The whole way. The script of any accepted configuration that arrives runs, and the guest built by it
      comes up if and only if it takes the configuration's numbers and the kernel lets it; and then it
      runs the app under the configured ids, limits and environment, behind a filter that enforces the
      configured entries. */
  method ConfigToApp(c: GuestConfig, f: Features, w: World)
      returns (script: string, guest: Guest, supervising: bool)
    requires Validates(c) && Typed(c) && FeaturesOf(c, f) && (forall v :: Fits(c, v)) && 24 <= w.lastCap < 64
    ensures BuiltBy(script, guest.s)
    ensures fresh(guest) && (supervising <==> guest.AppRuns()) && (supervising <==> !guest.wiped)
    ensures supervising <==>
      GuestTakes(c) && FilterTaken(guest.s, f, w) && SandboxBuilds(guest.s, f, w) && NothingRefused(f, w) && !guest.failed
    ensures supervising ==> guest.child != null && guest.lockedDown && RunsAs(guest.child, c, f, w)
    ensures f.firewall ==> forall i :: 0 <= i < |c.firewall.inbound| ==> ValidEntry(c.firewall.inbound[i])
    ensures supervising && f.firewall ==>
      var policy := Compiled(guest.s.firewallRules, TableFamily(f.ipv6));
      policy.Ok? && guest.filter == Some(policy.value.bytes) && Enforces(policy, c.firewall.inbound, f.ipv6)
  {
    hide Validates, Fits, Breaks, Baked, Environment, Enforces, ParseRules, RunScript, Compiled, Exports, Complete;
    hide Confined, HoldsPairs, BaselineDenylist, FilterTaken, SandboxBuilds, NothingRefused, Usable, Typed;
    hide StringsOf, AppUsable, AppIds, LimitsOf, ParsePairs, GuestTakes, DenotesAll, ValidEntry, LimitsConfigured;
    hide AppRules, RulesConfigured;
    var writer := new ScriptWriter();
    AppEnvExports(c, writer);
    script := writer.text;
    assert [] + Exports(c, SCRIPT_ORDER) == Exports(c, SCRIPT_ORDER);
    ExportsRun(c);
    GetsBuilt(c);
    var s := StringsOf(Baked(RunScript(script, map[]).value).value);
    SidesAgreeOnConstants(c, f, s);
    if f.firewall {
      RulesArrive(c, s);
      CompiledEnforces(s.firewallRules, c.firewall.inbound, f.ipv6);
    }
    guest := new Guest(f, s);
    supervising := guest.Boot(w);
  }
}
