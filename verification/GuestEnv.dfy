/** How lists and maps of the configuration reach the guest: joined into one string, exported by a
    generated shell script, baked into the guest's binary by its build script, and split again. */
module GuestEnv {
  import opened BuildScript
  import opened FirewallConfig
  import opened ShellScript
  import opened Text
  import opened Wrappers

  type Pair = (string, string)

  // ----- the host ----------------------------------------------------------------------------

  function KvEntries(pairs: seq<Pair>): (r: seq<string>)
    ensures |r| == |pairs| && forall i :: 0 <= i < |r| ==> r[i] == pairs[i].0 + ['='] + pairs[i].1
  {
    seq(|pairs|, i requires 0 <= i < |pairs| => pairs[i].0 + ['='] + pairs[i].1)
  }

  function EncodeKvPairs(pairs: seq<Pair>): string {
    Join(KvEntries(pairs), ';')
  }

  function EncodePathList(entries: seq<string>): string {
    Join(entries, ';')
  }

  predicate PlainPair(p: Pair) {
    ';' !in p.0 && '=' !in p.0 && ';' !in p.1
  }

  /** Of one table: the first pair that cannot be represented, if any. */
  function ValidateKvEncoding(pairs: seq<Pair>): (r: Result<(), string>)
    ensures r.Ok? <==> forall i :: 0 <= i < |pairs| ==> PlainPair(pairs[i])
    ensures r.Err? ==> exists p :: p in pairs && p.0 == r.error && !PlainPair(p)
  {
    if pairs == [] then Ok(())
    else if !PlainPair(pairs[0]) then
      assert pairs[0] in pairs;
      Err(pairs[0].0)
    else
      assert forall i :: 1 <= i < |pairs| ==> pairs[i] == pairs[1..][i - 1];
      ValidateKvEncoding(pairs[1..])
  }

  function ValidateListEncoding(entries: seq<string>): (r: Result<(), string>)
    ensures r.Ok? <==> forall i :: 0 <= i < |entries| ==> ';' !in entries[i]
    ensures r.Err? ==> r.error in entries && ';' in r.error
  {
    if entries == [] then Ok(())
    else if ';' in entries[0] then Err(entries[0])
    else
      assert forall i :: 1 <= i < |entries| ==> entries[i] == entries[1..][i - 1];
      ValidateListEncoding(entries[1..])
  }

  // ----- the guest ---------------------------------------------------------------------------

  function ParsePathList(raw: string): seq<string> {
    NonEmpty(Split(raw, ';'))
  }

  /** `None` is the fatal branch: a piece with no `=` runs the wipe. */
  function SplitEach(pieces: seq<string>): Option<seq<Pair>> {
    if pieces == [] then Some([])
    else
      match (SplitOnce(pieces[0], '='), SplitEach(pieces[1..]))
      case (Some(pair), Some(rest)) => Some([pair] + rest)
      case _ => None
  }

  function ParsePairs(raw: string): Option<seq<Pair>> {
    SplitEach(NonEmpty(Split(raw, ';')))
  }

  // ----- round trips -------------------------------------------------------------------------

  lemma PiecePlain(piece: string)
    requires ';' !in piece && SplitOnce(piece, '=').Some?
    ensures PlainPair(SplitOnce(piece, '=').value)
  {
    var (key, value) := SplitOnce(piece, '=').value;
    assert key == piece[..|key|] && value == piece[|key| + 1..];
  }

  lemma {:induction false} SplitEachPlain(pieces: seq<string>)
    requires forall i :: 0 <= i < |pieces| ==> ';' !in pieces[i]
    ensures match SplitEach(pieces)
            case None => true
            case Some(pairs) => forall i :: 0 <= i < |pairs| ==> PlainPair(pairs[i])
  {
    hide SplitOnce;
    if pieces != [] {
      SplitEachPlain(pieces[1..]);
      if SplitEach(pieces).Some? {
        PiecePlain(pieces[0]);
        assert SplitEach(pieces).value == [SplitOnce(pieces[0], '=').value] + SplitEach(pieces[1..]).value;
      }
    }
  }

  lemma {:induction false} SplitEachEntries(pairs: seq<Pair>)
    requires forall i :: 0 <= i < |pairs| ==> '=' !in pairs[i].0
    ensures SplitEach(KvEntries(pairs)) == Some(pairs)
  {
    hide SplitOnce;
    if pairs != [] {
      assert KvEntries(pairs)[1..] == KvEntries(pairs[1..]);
      SplitOnceAt(pairs[0].0, '=', pairs[0].1);
      SplitEachEntries(pairs[1..]);
      assert pairs == [pairs[0]] + pairs[1..];
    }
  }

  lemma {:induction false} NonEmptyPlain(parts: seq<string>)
    requires forall i :: 0 <= i < |parts| ==> ';' !in parts[i]
    ensures forall i :: 0 <= i < |NonEmpty(parts)| ==> ';' !in NonEmpty(parts)[i]
  {
  }

  lemma {:induction false} NonEmptyKeeps(parts: seq<string>, i: nat)
    requires i < |parts| && parts[i] != ""
    ensures parts[i] in NonEmpty(parts)
  {
    if i > 0 {
      NonEmptyKeeps(parts[1..], i - 1);
    }
  }

  lemma NothingSplits()
    ensures NonEmpty(Split("", ';')) == []
  {
    assert Split("", ';') == [""];
    assert NonEmpty([""]) == [];
  }

  /** Whatever the string, pairs the guest reads are pairs the host would have let through. */
  lemma ParsedPairsAreValid(raw: string)
    requires ParsePairs(raw).Some?
    ensures ValidateKvEncoding(ParsePairs(raw).value).Ok?
  {
    var pieces := NonEmpty(Split(raw, ';'));
    NonEmptyPlain(Split(raw, ';'));
    SplitEachPlain(pieces);
    assert ParsePairs(raw) == SplitEach(pieces);
  }

  /** The guest reads back the pairs the host wrote, in order and without the fatal branch, exactly
      when the host's validation lets them through. */
  lemma KvRoundTrip(pairs: seq<Pair>)
    ensures ParsePairs(EncodeKvPairs(pairs)) == Some(pairs) <==> ValidateKvEncoding(pairs).Ok?
  {
    hide Split, NonEmpty, SplitEach, Join;
    if ParsePairs(EncodeKvPairs(pairs)) == Some(pairs) {
      ParsedPairsAreValid(EncodeKvPairs(pairs));
    }
    if ValidateKvEncoding(pairs).Ok? {
      SplitEachEntries(pairs);
      if pairs == [] {
        JoinsNothing();
        NothingSplits();
        assert KvEntries(pairs) == [];
      } else {
        forall i | 0 <= i < |pairs| ensures ';' !in KvEntries(pairs)[i] {
          assert PlainPair(pairs[i]);
        }
        SplitJoin(KvEntries(pairs), ';');
        NonEmptyAll(KvEntries(pairs));
      }
    }
  }

  lemma JoinsNothing()
    ensures Join([], ';') == ""
  {
  }

  /** The same for lists, whose empty entries the guest drops. */
  lemma ListRoundTrip(entries: seq<string>)
    ensures ParsePathList(EncodePathList(entries)) == NonEmpty(entries) <==> ValidateListEncoding(entries).Ok?
  {
    hide Split, NonEmpty, Join;
    NonEmptyPlain(Split(EncodePathList(entries), ';'));
    if ValidateListEncoding(entries).Ok? {
      if entries == [] {
        JoinsNothing();
        NothingSplits();
        NonEmptyAll(entries);
      } else {
        SplitJoin(entries, ';');
      }
    } else {
      var i :| 0 <= i < |entries| && ';' in entries[i];
      NonEmptyKeeps(entries, i);
    }
  }

  // ----- what the script exports -------------------------------------------------------------

  datatype StaticV6 = StaticV6(address: string, prefixLen: nat, gateway: Option<string>, interface: Option<string>)

  /** The parts of a configuration the guest is built with as data. */
  datatype GuestConfig = GuestConfig(
    uid: nat, gid: nat, env: seq<Pair>,
    maxOpenFiles: nat, maxProcesses: nat, maxMemoryMb: nat, maxLockedMemoryMb: nat,
    ipv6Static: Option<StaticV6>, extraSysctls: seq<Pair>,
    tmpMb: nat, runMb: nat, shmMb: nat, varTmpMb: nat,
    landlock: bool, extraReadPaths: seq<string>, extraReadWritePaths: seq<string>,
    firewall: Firewall, hasNetwork: bool,
    nameservers: seq<string>, search: Option<string>)

  /** The value a variable is exported with, if it is. */
  function ValueOf(c: GuestConfig, v: Var): Option<string> {
    match v
    case PayloadDir => None
    case AppPath => None
    case AppUid => Some(Decimal(c.uid))
    case AppGid => Some(Decimal(c.gid))
    case AppEnv => if c.env == [] then None else Some(EncodeKvPairs(c.env))
    case Ipv6Static =>
      if c.ipv6Static.None? then None
      else Some(c.ipv6Static.value.address + "/" + Decimal(c.ipv6Static.value.prefixLen))
    case Ipv6Gateway => if c.ipv6Static.None? then None else c.ipv6Static.value.gateway
    case Ipv6Iface => if c.ipv6Static.None? then None else c.ipv6Static.value.interface
    case ExtraSysctls => if c.extraSysctls == [] then None else Some(EncodeKvPairs(c.extraSysctls))
    case LimitNofile => Some(Decimal(c.maxOpenFiles))
    case LimitNproc => Some(Decimal(c.maxProcesses))
    case LimitAsMb => Some(Decimal(c.maxMemoryMb))
    case LimitMemlockMb => Some(Decimal(c.maxLockedMemoryMb))
    case TmpfsTmpMb => Some(Decimal(c.tmpMb))
    case TmpfsRunMb => Some(Decimal(c.runMb))
    case TmpfsShmMb => Some(Decimal(c.shmMb))
    case TmpfsVarTmpMb => Some(Decimal(c.varTmpMb))
    case FirewallRules =>
      if c.firewall.enabled && c.hasNetwork then Some(EncodeInbound(c.firewall.inbound)) else None
    case LandlockRo =>
      if c.landlock && c.extraReadPaths != [] then Some(EncodePathList(c.extraReadPaths)) else None
    case LandlockRw =>
      if c.landlock && c.extraReadWritePaths != [] then Some(EncodePathList(c.extraReadWritePaths)) else None
    case Nameservers => if c.nameservers == [] then None else Some(EncodePathList(c.nameservers))
    case DnsSearch => c.search
  }

  /** The order of the exports in the script. */
  const SCRIPT_ORDER: seq<Var> := [
    AppUid, AppGid, AppEnv, LimitNofile, LimitNproc, LimitAsMb, LimitMemlockMb,
    Ipv6Static, Ipv6Gateway, Ipv6Iface, ExtraSysctls, TmpfsTmpMb, TmpfsRunMb, TmpfsShmMb, TmpfsVarTmpMb,
    LandlockRo, LandlockRw, FirewallRules, Nameservers, DnsSearch]

  function Place(v: Var): nat {
    match v
    case AppUid => 0 case AppGid => 1 case AppEnv => 2 case LimitNofile => 3 case LimitNproc => 4
    case LimitAsMb => 5 case LimitMemlockMb => 6 case Ipv6Static => 7 case Ipv6Gateway => 8 case Ipv6Iface => 9
    case ExtraSysctls => 10 case TmpfsTmpMb => 11 case TmpfsRunMb => 12 case TmpfsShmMb => 13
    case TmpfsVarTmpMb => 14 case LandlockRo => 15 case LandlockRw => 16 case FirewallRules => 17
    case Nameservers => 18 case DnsSearch => 19 case _ => 20
  }

  lemma Placed(v: Var)
    requires v != PayloadDir && v != AppPath
    ensures Place(v) < |SCRIPT_ORDER| && SCRIPT_ORDER[Place(v)] == v
  {
  }

  function ExportOf(c: GuestConfig, v: Var): seq<Export> {
    match ValueOf(c, v)
    case Some(value) => [(NameOf(v), value)]
    case None => []
  }

  function Exports(c: GuestConfig, vars: seq<Var>): seq<Export> {
    if vars == [] then [] else ExportOf(c, vars[0]) + Exports(c, vars[1..])
  }

  lemma {:induction false} ExportsConcat(c: GuestConfig, vars: seq<Var>, v: Var)
    ensures Exports(c, vars + [v]) == Exports(c, vars) + ExportOf(c, v)
  {
    hide ExportOf;
    if vars == [] {
      assert vars + [v] == [v] && [v][1..] == [];
    } else {
      assert (vars + [v])[1..] == vars[1..] + [v];
      ExportsConcat(c, vars[1..], v);
    }
  }

  lemma NextExport(c: GuestConfig, k: nat)
    requires k < |SCRIPT_ORDER|
    ensures Exports(c, SCRIPT_ORDER[..k + 1]) == Exports(c, SCRIPT_ORDER[..k]) + ExportOf(c, SCRIPT_ORDER[k])
  {
    hide SCRIPT_ORDER;
    assert SCRIPT_ORDER[..k + 1] == SCRIPT_ORDER[..k] + [SCRIPT_ORDER[k]];
    ExportsConcat(c, SCRIPT_ORDER[..k], SCRIPT_ORDER[k]);
  }

  /** The script holds its first exports: those of the first `k` variables of its order. */
  ghost predicate Wrote(s: ScriptWriter, start: seq<Export>, c: GuestConfig, k: nat)
    reads s
  {
    k <= |SCRIPT_ORDER| && s.Valid() && s.exports == start + Exports(c, SCRIPT_ORDER[..k])
  }

  method WriteIf(s: ScriptWriter, on: bool, v: Var, value: string, ghost start: seq<Export>, ghost c: GuestConfig)
    requires v != PayloadDir && v != AppPath && Wrote(s, start, c, Place(v))
    requires ValueOf(c, v) == if on then Some(value) else None
    modifies s
    ensures Wrote(s, start, c, Place(v) + 1)
  {
    Placed(v);
    NextExport(c, Place(v));
    hide SCRIPT_ORDER, ValueOf, NameOf, Place;
    if on {
      s.WriteExport(NameOf(v), value);
    }
  }

  method IdentityAndLimits(c: GuestConfig, s: ScriptWriter, ghost start: seq<Export>)
    requires Wrote(s, start, c, 0)
    modifies s
    ensures Wrote(s, start, c, 7)
  {
    hide Wrote, EncodeKvPairs, Decimal, SCRIPT_ORDER;
    WriteIf(s, true, AppUid, Decimal(c.uid), start, c);
    WriteIf(s, true, AppGid, Decimal(c.gid), start, c);
    WriteIf(s, c.env != [], AppEnv, EncodeKvPairs(c.env), start, c);
    WriteIf(s, true, LimitNofile, Decimal(c.maxOpenFiles), start, c);
    WriteIf(s, true, LimitNproc, Decimal(c.maxProcesses), start, c);
    WriteIf(s, true, LimitAsMb, Decimal(c.maxMemoryMb), start, c);
    WriteIf(s, true, LimitMemlockMb, Decimal(c.maxLockedMemoryMb), start, c);
  }

  method StaticAddress(c: GuestConfig, s: ScriptWriter, ghost start: seq<Export>)
    requires Wrote(s, start, c, 7)
    modifies s
    ensures Wrote(s, start, c, 10)
  {
    hide Wrote, Decimal, SCRIPT_ORDER;
    if c.ipv6Static.Some? {
      var v6 := c.ipv6Static.value;
      WriteIf(s, true, Ipv6Static, v6.address + "/" + Decimal(v6.prefixLen), start, c);
      WriteIf(s, v6.gateway.Some?, Ipv6Gateway, if v6.gateway.Some? then v6.gateway.value else "", start, c);
      WriteIf(s, v6.interface.Some?, Ipv6Iface, if v6.interface.Some? then v6.interface.value else "", start, c);
    } else {
      WriteIf(s, false, Ipv6Static, "", start, c);
      WriteIf(s, false, Ipv6Gateway, "", start, c);
      WriteIf(s, false, Ipv6Iface, "", start, c);
    }
  }

  method SysctlsAndSizes(c: GuestConfig, s: ScriptWriter, ghost start: seq<Export>)
    requires Wrote(s, start, c, 10)
    modifies s
    ensures Wrote(s, start, c, 15)
  {
    hide Wrote, EncodeKvPairs, Decimal, SCRIPT_ORDER;
    WriteIf(s, c.extraSysctls != [], ExtraSysctls, EncodeKvPairs(c.extraSysctls), start, c);
    WriteIf(s, true, TmpfsTmpMb, Decimal(c.tmpMb), start, c);
    WriteIf(s, true, TmpfsRunMb, Decimal(c.runMb), start, c);
    WriteIf(s, true, TmpfsShmMb, Decimal(c.shmMb), start, c);
    WriteIf(s, true, TmpfsVarTmpMb, Decimal(c.varTmpMb), start, c);
  }

  method ExtraPaths(c: GuestConfig, s: ScriptWriter, ghost start: seq<Export>)
    requires Wrote(s, start, c, 15)
    modifies s
    ensures Wrote(s, start, c, 17)
  {
    hide Wrote, EncodePathList, SCRIPT_ORDER;
    if c.landlock {
      WriteIf(s, c.extraReadPaths != [], LandlockRo, EncodePathList(c.extraReadPaths), start, c);
      WriteIf(s, c.extraReadWritePaths != [], LandlockRw, EncodePathList(c.extraReadWritePaths), start, c);
    } else {
      WriteIf(s, false, LandlockRo, "", start, c);
      WriteIf(s, false, LandlockRw, "", start, c);
    }
  }

  method FilterAndNames(c: GuestConfig, s: ScriptWriter, ghost start: seq<Export>)
    requires Wrote(s, start, c, 17)
    modifies s
    ensures Wrote(s, start, c, 20)
  {
    hide Wrote, EncodePathList, EncodeInbound, SCRIPT_ORDER;
    WriteIf(s, c.firewall.enabled && c.hasNetwork, FirewallRules, EncodeInbound(c.firewall.inbound), start, c);
    WriteIf(s, c.nameservers != [], Nameservers, EncodePathList(c.nameservers), start, c);
    WriteIf(s, c.search.Some?, DnsSearch, if c.search.Some? then c.search.value else "", start, c);
  }

  /** Each variable is written under the condition, with the encoding and in the place the
      configuration gives it. */
  method AppEnvExports(c: GuestConfig, s: ScriptWriter)
    requires s.Valid()
    modifies s
    ensures s.Valid() && s.exports == old(s.exports) + Exports(c, SCRIPT_ORDER)
  {
    ghost var start := s.exports;
    assert Wrote(s, start, c, 0) by { assert start + [] == start; }
    hide Wrote, SCRIPT_ORDER;
    IdentityAndLimits(c, s, start);
    StaticAddress(c, s, start);
    SysctlsAndSizes(c, s, start);
    ExtraPaths(c, s, start);
    FilterAndNames(c, s, start);
    AllWritten(s, start, c);
  }

  lemma AllWritten(s: ScriptWriter, start: seq<Export>, c: GuestConfig)
    requires Wrote(s, start, c, 20)
    ensures s.Valid() && s.exports == start + Exports(c, SCRIPT_ORDER)
  {
    assert SCRIPT_ORDER[..20] == SCRIPT_ORDER;
  }

  // ----- what the guest is built in, and with ------------------------------------------------

  lemma {:induction false} ExportsNamed(c: GuestConfig, vars: seq<Var>)
    ensures AllNamed(Exports(c, vars))
  {
    hide ValueOf, IsName, NameOf;
    if vars != [] {
      NamesAreNames(vars[0]);
      ExportsNamed(c, vars[1..]);
    }
  }

  /** The environment the guest is built in, once the script has run. */
  function Environment(c: GuestConfig): map<string, string> {
    Setting(Exports(c, SCRIPT_ORDER), map[])
  }

  /** Any configuration's script runs. */
  lemma ExportsRun(c: GuestConfig)
    ensures RunScript(Script(Exports(c, SCRIPT_ORDER)), map[]) == Ok(Environment(c))
  {
    ExportsNamed(c, SCRIPT_ORDER);
    ScriptRuns(Exports(c, SCRIPT_ORDER));
  }

  lemma SettingOne(c: GuestConfig, v: Var, rest: seq<Export>, env: map<string, string>)
    ensures Setting(ExportOf(c, v) + rest, env) == Setting(rest,
      match ValueOf(c, v) case Some(value) => env[NameOf(v) := DropNul(value)] case None => env)
  {
    hide ValueOf, NameOf, DropNul;
    match ValueOf(c, v)
    case None =>
      assert ExportOf(c, v) + rest == rest;
    case Some(value) =>
      assert (ExportOf(c, v) + rest)[1..] == rest;
  }

  lemma {:induction false} ExportsSet(c: GuestConfig, vars: seq<Var>, env: map<string, string>, v: Var)
    ensures var after, name := Setting(Exports(c, vars), env), NameOf(v);
      if v in vars && ValueOf(c, v).Some? then name in after && after[name] == DropNul(ValueOf(c, v).value)
      else (name in after <==> name in env) && (name in env ==> after[name] == env[name])
  {
    hide ValueOf, NameOf, DropNul, ExportOf, Setting;
    if vars == [] {
      assert Setting([], env) == env by { NothingSet(env); }
    } else {
      var w := vars[0];
      assert v in vars <==> v == w || v in vars[1..];
      NamesDiffer(v, w);
      SettingOne(c, w, Exports(c, vars[1..]), env);
      var more := match ValueOf(c, w) case Some(value) => env[NameOf(w) := DropNul(value)] case None => env;
      ExportsSet(c, vars[1..], more, v);
    }
  }

  lemma NothingSet(env: map<string, string>)
    ensures Setting([], env) == env
  {
  }

  /** What the build script finds a variable to be. */
  function Seen(c: GuestConfig, v: Var): string {
    match ValueOf(c, v) case Some(value) => DropNul(value) case None => Default(v)
  }

  lemma NeverExported(c: GuestConfig, v: Var)
    requires v == PayloadDir || v == AppPath
    ensures ValueOf(c, v).None?
  {
  }

  lemma EnvironmentHas(c: GuestConfig, v: Var)
    ensures ValueIn(Environment(c), v) == Seen(c, v)
  {
    hide ValueOf, NameOf, DropNul, Setting, Exports, SCRIPT_ORDER, Default;
    ExportsSet(c, SCRIPT_ORDER, map[], v);
    if v != PayloadDir && v != AppPath {
      Placed(v);
    } else {
      NeverExported(c, v);
    }
  }

  /** What the guest is compiled with; `None` is a build that fails. */
  function Built(c: GuestConfig): Option<map<string, string>> {
    Baked(Environment(c))
  }

  predicate Breaks(c: GuestConfig, v: Var) {
    ValueOf(c, v).Some? && '\n' in ValueOf(c, v).value
  }

  lemma {:induction false} DropNulKeeps(s: string, c: char)
    requires c != '\0'
    ensures c in DropNul(s) <==> c in s
  {
    if s != "" {
      DropNulKeeps(s[1..], c);
      assert c in s <==> c == s[0] || c in s[1..];
    }
  }

  lemma SeenBreaks(c: GuestConfig, v: Var)
    ensures '\n' in Seen(c, v) <==> Breaks(c, v)
  {
    hide ValueOf, DropNul;
    if ValueOf(c, v).Some? {
      DropNulKeeps(ValueOf(c, v).value, '\n');
    }
  }

  /** As long as no exported string holds a line break, each variable is compiled in as its own value,
      less NULs and the whitespace at its end, whatever the others are. */
  lemma EachVariable(c: GuestConfig, v: Var)
    requires forall w :: !Breaks(c, w)
    ensures Built(c).Some? && NameOf(v) in Built(c).value && Built(c).value[NameOf(v)] == TrimEnd(Seen(c, v))
  {
    hide ValueIn, Environment, TrimEnd, NameOf, Seen, Breaks, Baked, PRINT_ORDER;
    forall w: Var | w in PRINT_ORDER ensures '\n' !in ValueIn(Environment(c), w) {
      EnvironmentHas(c, w);
      SeenBreaks(c, w);
    }
    BakesEach(Environment(c), v);
    EnvironmentHas(c, v);
  }

  // ----- the whole way -----------------------------------------------------------------------

  predicate Validates(c: GuestConfig) {
    && ValidateKvEncoding(c.env).Ok? && ValidateKvEncoding(c.extraSysctls).Ok?
    && ValidateListEncoding(c.extraReadPaths).Ok? && ValidateListEncoding(c.extraReadWritePaths).Ok?
    && ValidateListEncoding(c.nameservers).Ok?
    && ValidateFirewall(c.firewall, c.hasNetwork).Ok?
    && c.uid != 0 && c.gid != 0
  }

  predicate IsNumber(raw: string, n: nat) {
    raw != "" && Digits(raw) == Some(n)
  }

  predicate IsText(raw: string, text: Option<string>) {
    raw == if text.Some? then text.value else ""
  }

  /** What the guest makes of one baked string is what the configuration says. */
  predicate Arrives(c: GuestConfig, v: Var, raw: string) {
    match v
    case PayloadDir => raw == "/payload"
    case AppPath => raw == "/payload/app"
    case AppUid => IsNumber(raw, c.uid)
    case AppGid => IsNumber(raw, c.gid)
    case AppEnv => ParsePairs(raw) == Some(c.env)
    case Ipv6Static =>
      (match c.ipv6Static case None => raw == "" case Some(v6) => raw == v6.address + "/" + Decimal(v6.prefixLen))
    case Ipv6Gateway => (match c.ipv6Static case None => raw == "" case Some(v6) => IsText(raw, v6.gateway))
    case Ipv6Iface => (match c.ipv6Static case None => raw == "" case Some(v6) => IsText(raw, v6.interface))
    case ExtraSysctls => ParsePairs(raw) == Some(c.extraSysctls)
    case LimitNofile => IsNumber(raw, c.maxOpenFiles)
    case LimitNproc => IsNumber(raw, c.maxProcesses)
    case LimitAsMb => IsNumber(raw, c.maxMemoryMb)
    case LimitMemlockMb => IsNumber(raw, c.maxLockedMemoryMb)
    case TmpfsTmpMb => IsNumber(raw, c.tmpMb)
    case TmpfsRunMb => IsNumber(raw, c.runMb)
    case TmpfsShmMb => IsNumber(raw, c.shmMb)
    case TmpfsVarTmpMb => IsNumber(raw, c.varTmpMb)
    case FirewallRules =>
      c.firewall.enabled ==>
        && (forall i :: 0 <= i < |c.firewall.inbound| ==> ValidEntry(c.firewall.inbound[i]))
        && ParseRules(raw) == Some(DenotesAll(c.firewall.inbound))
    case LandlockRo => ParsePathList(raw) == if c.landlock then NonEmpty(c.extraReadPaths) else []
    case LandlockRw => ParsePathList(raw) == if c.landlock then NonEmpty(c.extraReadWritePaths) else []
    case Nameservers => ParsePathList(raw) == NonEmpty(c.nameservers)
    case DnsSearch => IsText(raw, c.search)
  }

  /** The guest gets built, and every variable arrives. */
  ghost predicate ConfigArrives(c: GuestConfig) {
    && Built(c).Some?
    && forall v :: NameOf(v) in Built(c).value && Arrives(c, v, Built(c).value[NameOf(v)])
  }

  /** A shell variable can hold the string, and one trimmed line of output can carry it. */
  predicate Carried(s: string) {
    '\0' !in s && '\n' !in s && (s == "" || !IsWhitespace(s[|s| - 1]))
  }

  predicate Fits(c: GuestConfig, v: Var) {
    ValueOf(c, v).Some? ==> Carried(ValueOf(c, v).value)
  }

  lemma RulesUnderstood(c: GuestConfig, raw: string)
    requires Arrives(c, FirewallRules, raw) && c.firewall.enabled
    ensures forall i :: 0 <= i < |c.firewall.inbound| ==> ValidEntry(c.firewall.inbound[i])
    ensures ParseRules(raw) == Some(DenotesAll(c.firewall.inbound))
  {
    hide ParseRules, DenotesAll, ValidEntry;
  }

  // ----- a string that is carried arrives ----------------------------------------------------

  lemma EmptyParses()
    ensures ParsePairs("") == Some([]) && ParsePathList("") == [] && NonEmpty([]) == []
  {
    NothingSplits();
  }

  lemma NumberArrives(n: nat)
    ensures IsNumber(Decimal(n), n)
  {
    DecimalReads(n);
  }

  /** Unchanged on the way, every variable of an accepted configuration is understood. */
  lemma ValueArrives(c: GuestConfig, v: Var)
    requires Validates(c)
    ensures Arrives(c, v, match ValueOf(c, v) case Some(value) => value case None => Default(v))
  {
    hide EncodeKvPairs, EncodePathList, EncodeInbound, Decimal, ParsePairs, ParsePathList, ParseRules, NonEmpty;
    hide IsNumber, ValidEntry, ValidateEntries, ValidateKvEncoding, ValidateListEncoding;
    EmptyParses();
    match v
    case AppEnv => KvRoundTrip(c.env);
    case ExtraSysctls => KvRoundTrip(c.extraSysctls);
    case LandlockRo => ListRoundTrip(c.extraReadPaths);
    case LandlockRw => ListRoundTrip(c.extraReadWritePaths);
    case Nameservers => ListRoundTrip(c.nameservers);
    case FirewallRules =>
      if c.firewall.enabled {
        InboundRoundTrip(c.firewall.inbound);
      }
    case AppUid => NumberArrives(c.uid);
    case AppGid => NumberArrives(c.gid);
    case LimitNofile => NumberArrives(c.maxOpenFiles);
    case LimitNproc => NumberArrives(c.maxProcesses);
    case LimitAsMb => NumberArrives(c.maxMemoryMb);
    case LimitMemlockMb => NumberArrives(c.maxLockedMemoryMb);
    case TmpfsTmpMb => NumberArrives(c.tmpMb);
    case TmpfsRunMb => NumberArrives(c.runMb);
    case TmpfsShmMb => NumberArrives(c.shmMb);
    case TmpfsVarTmpMb => NumberArrives(c.varTmpMb);
    case _ =>
  }

  lemma DefaultsTrimmed(v: Var)
    ensures TrimEnd(Default(v)) == Default(v)
  {
  }

  lemma FittingSeen(c: GuestConfig, v: Var)
    requires Fits(c, v)
    ensures !Breaks(c, v)
    ensures TrimEnd(Seen(c, v)) == match ValueOf(c, v) case Some(value) => value case None => Default(v)
  {
    hide ValueOf, Default, TrimEnd;
    DefaultsTrimmed(v);
    if ValueOf(c, v).Some? {
      DropNulPlain(ValueOf(c, v).value);
      TrimEndKeeps(ValueOf(c, v).value);
    }
  }

  // ----- and one that is not does not --------------------------------------------------------

  /** The characters of a list, less what separates its entries. */
  function Squeezed(s: string): string {
    if s == "" then "" else (if s[0] == ';' then "" else [s[0]]) + Squeezed(s[1..])
  }

  function Flat(parts: seq<string>): string {
    if parts == [] then "" else parts[0] + Flat(parts[1..])
  }

  lemma FlatNonEmpty(first: string, rest: seq<string>)
    ensures Flat(NonEmpty([first] + rest)) == first + Flat(NonEmpty(rest))
  {
    assert ([first] + rest)[1..] == rest;
    if first == "" {
      assert NonEmpty([first] + rest) == NonEmpty(rest);
    } else {
      assert NonEmpty([first] + rest) == [first] + NonEmpty(rest);
      assert ([first] + NonEmpty(rest))[1..] == NonEmpty(rest);
    }
  }

  lemma SplitOne(s: string)
    requires s != ""
    ensures var rest := Split(s[1..], ';');
      Split(s, ';') == if s[0] == ';' then [""] + rest else [[s[0]] + rest[0]] + rest[1..]
  {
  }

  lemma SqueezedOne(s: string)
    requires s != ""
    ensures Squeezed(s) == (if s[0] == ';' then "" else [s[0]]) + Squeezed(s[1..])
  {
  }

  lemma Regroup(c: char, rest: seq<string>)
    requires rest != []
    ensures Flat(NonEmpty([[c] + rest[0]] + rest[1..])) == [c] + Flat(NonEmpty(rest))
  {
    hide NonEmpty, Flat;
    var more := Flat(NonEmpty(rest[1..]));
    FlatNonEmpty([c] + rest[0], rest[1..]);
    FlatNonEmpty(rest[0], rest[1..]);
    assert [rest[0]] + rest[1..] == rest;
    assert [c] + rest[0] + more == [c] + (rest[0] + more);
  }

  lemma {:induction false} SqueezedPieces(s: string)
    ensures Flat(NonEmpty(Split(s, ';'))) == Squeezed(s)
  {
    if s == "" {
      NothingSplits();
    } else {
      hide NonEmpty, Flat, Split, Squeezed;
      var rest := Split(s[1..], ';');
      SqueezedPieces(s[1..]);
      SplitOne(s);
      SqueezedOne(s);
      if s[0] == ';' {
        FlatNonEmpty("", rest);
        assert "" + Flat(NonEmpty(rest)) == Flat(NonEmpty(rest));
      } else {
        Regroup(s[0], rest);
      }
    }
  }

  lemma {:induction false} SqueezedHas(s: string, c: char)
    requires c != ';'
    ensures c in Squeezed(s) <==> c in s
  {
    if s != "" {
      SqueezedHas(s[1..], c);
      assert c in s <==> c == s[0] || c in s[1..];
    }
  }

  lemma {:induction false} SqueezedSnoc(s: string, c: char)
    ensures Squeezed(s + [c]) == Squeezed(s) + if c == ';' then "" else [c]
  {
    if s == "" {
      assert s + [c] == [c] && [c][1..] == "";
    } else {
      assert (s + [c])[1..] == s[1..] + [c];
      SqueezedSnoc(s[1..], c);
    }
  }

  lemma {:induction false} NulsCount(s: string)
    ensures |Squeezed(DropNul(s))| <= |Squeezed(s)|
    ensures '\0' in s ==> |Squeezed(DropNul(s))| < |Squeezed(s)|
  {
    if s != "" {
      NulsCount(s[1..]);
      if s[0] == '\0' {
        assert DropNul(s) == DropNul(s[1..]);
      } else {
        assert DropNul(s) == [s[0]] + DropNul(s[1..]);
        assert ([s[0]] + DropNul(s[1..]))[1..] == DropNul(s[1..]);
      }
    }
  }

  lemma {:induction false} TrimmingCounts(s: string)
    ensures |Squeezed(TrimEnd(s))| <= |Squeezed(s)|
    ensures TrimEnd(s) != s ==> |Squeezed(TrimEnd(s))| < |Squeezed(s)|
  {
    if s != "" && IsWhitespace(s[|s| - 1]) {
      hide Squeezed;
      var before, last := s[..|s| - 1], s[|s| - 1];
      TrimmingCounts(before);
      assert s == before + [last] && last != ';';
      SqueezedSnoc(before, last);
    }
  }

  /** A value that is not carried comes out with a character missing. */
  lemma LossShows(s: string, raw: string)
    requires !Carried(s)
    requires '\n' !in raw && ('\n' !in s ==> raw == TrimEnd(DropNul(s)))
    ensures Squeezed(raw) != Squeezed(s)
  {
    hide Squeezed, TrimEnd, DropNul;
    SqueezedHas(s, '\n');
    SqueezedHas(raw, '\n');
    NulsCount(s);
    TrimmingCounts(DropNul(s));
    DropNulPlain(s);
    TrimEndKeeps(s);
  }

  lemma {:induction false} PiecesOfPairs(pieces: seq<string>)
    requires SplitEach(pieces).Some?
    ensures KvEntries(SplitEach(pieces).value) == pieces
  {
    if pieces != [] {
      PiecesOfPairs(pieces[1..]);
      var pair, rest := SplitOnce(pieces[0], '=').value, SplitEach(pieces[1..]).value;
      assert SplitEach(pieces).value == [pair] + rest;
      assert KvEntries([pair] + rest) == [pair.0 + ['='] + pair.1] + KvEntries(rest);
    }
  }

  /** Strings the guest reads the same pairs out of hold the same characters. */
  lemma SamePairs(a: string, b: string)
    requires ParsePairs(a).Some? && ParsePairs(a) == ParsePairs(b)
    ensures Squeezed(a) == Squeezed(b)
  {
    hide SplitEach, NonEmpty, Split, Squeezed;
    PiecesOfPairs(NonEmpty(Split(a, ';')));
    PiecesOfPairs(NonEmpty(Split(b, ';')));
    SqueezedPieces(a);
    SqueezedPieces(b);
  }

  lemma SameLists(a: string, b: string)
    requires ParsePathList(a) == ParsePathList(b)
    ensures Squeezed(a) == Squeezed(b)
  {
    hide NonEmpty, Split, Squeezed;
    SqueezedPieces(a);
    SqueezedPieces(b);
  }

  lemma PlainCarried(s: string)
    requires RuleText(s)
    ensures Carried(s)
  {
    assert s == "" || !IsWhitespace(s[|s| - 1]);
  }

  lemma NumberCarried(n: nat)
    ensures Carried(Decimal(n))
  {
    PlainCarried(Decimal(n));
  }

  /** Numbers and accepted firewall entries are carried, always. */
  predicate AlwaysFits(v: Var) {
    v.AppUid? || v.AppGid? || v.LimitNofile? || v.LimitNproc? || v.LimitAsMb? || v.LimitMemlockMb?
    || v.TmpfsTmpMb? || v.TmpfsRunMb? || v.TmpfsShmMb? || v.TmpfsVarTmpMb? || v.FirewallRules?
  }

  lemma AlwaysFit(c: GuestConfig, v: Var)
    requires Validates(c) && AlwaysFits(v)
    ensures Fits(c, v)
  {
    hide Carried, Decimal, EncodeInbound, ValidEntry, ValidateEntries;
    hide ValidateKvEncoding, ValidateListEncoding, RuleText;
    match v
    case AppUid => NumberCarried(c.uid);
    case AppGid => NumberCarried(c.gid);
    case LimitNofile => NumberCarried(c.maxOpenFiles);
    case LimitNproc => NumberCarried(c.maxProcesses);
    case LimitAsMb => NumberCarried(c.maxMemoryMb);
    case LimitMemlockMb => NumberCarried(c.maxLockedMemoryMb);
    case TmpfsTmpMb => NumberCarried(c.tmpMb);
    case TmpfsRunMb => NumberCarried(c.runMb);
    case TmpfsShmMb => NumberCarried(c.shmMb);
    case TmpfsVarTmpMb => NumberCarried(c.varTmpMb);
    case FirewallRules =>
      if c.firewall.enabled {
        ValidatesEach(c.firewall.inbound);
        EncodesToRuleText(c.firewall.inbound);
        PlainCarried(EncodeInbound(c.firewall.inbound));
      }
  }

  /** Whatever the guest is given, if it understands the configured value it was given that value's
      characters. */
  lemma ArrivedWhole(c: GuestConfig, v: Var, raw: string)
    requires Validates(c) && ValueOf(c, v).Some? && !AlwaysFits(v) && Arrives(c, v, raw)
    ensures Squeezed(raw) == Squeezed(ValueOf(c, v).value)
  {
    ValueArrives(c, v);
    hide EncodeKvPairs, EncodePathList, EncodeInbound, Decimal, ParsePairs, ParsePathList, ParseRules, NonEmpty;
    hide Validates, Squeezed;
    var value := ValueOf(c, v).value;
    match v
    case AppEnv => SamePairs(raw, value);
    case ExtraSysctls => SamePairs(raw, value);
    case LandlockRo => SameLists(raw, value);
    case LandlockRw => SameLists(raw, value);
    case Nameservers => SameLists(raw, value);
    case _ =>
  }

  lemma LostVariable(c: GuestConfig, v: Var)
    requires Validates(c) && !Fits(c, v) && (Breaks(c, v) || forall w :: !Breaks(c, w))
    ensures !ConfigArrives(c)
  {
    if ConfigArrives(c) {
      hide Arrives, Carried, Squeezed, Built, Validates, ValueOf, TrimEnd, DropNul, NameOf;
      var raw := Built(c).value[NameOf(v)];
      assert Arrives(c, v, raw);
      var value := ValueOf(c, v).value;
      assert '\n' !in raw by { BuiltInLines(c, v); }
      if AlwaysFits(v) {
        AlwaysFit(c, v);
      } else {
        ArrivedWhole(c, v, raw);
        if '\n' !in value {
          EachVariable(c, v);
        }
        LossShows(value, raw);
      }
    }
  }

  lemma BuiltInLines(c: GuestConfig, v: Var)
    requires Built(c).Some? && NameOf(v) in Built(c).value
    ensures '\n' !in Built(c).value[NameOf(v)]
  {
    hide Baked, NameOf, Environment;
    NothingBreaksLines(Environment(c));
  }

  /** Every configuration the host accepts reaches the guest, pairs, lists, numbers and texts as they
      were configured and firewall entries as the rules they denote, if and only if no exported string
      holds a NUL or a line break or ends in whitespace: validation does not rule these out. */
  lemma ConfigReachesGuest(c: GuestConfig)
    requires Validates(c)
    ensures ConfigArrives(c) <==> forall v :: Fits(c, v)
  {
    if v :| !Fits(c, v) {
      if w :| Breaks(c, w) {
        assert !Fits(c, w);
        LostVariable(c, w);
      } else {
        LostVariable(c, v);
      }
    } else {
      EverythingArrives(c);
    }
  }

  lemma EverythingArrives(c: GuestConfig)
    requires Validates(c) && forall v :: Fits(c, v)
    ensures ConfigArrives(c)
  {
    hide Arrives, Fits, Breaks, Seen, Built, Validates, ValueOf, TrimEnd, NameOf, Default;
    forall v: Var
      ensures !Breaks(c, v)
    {
      FittingSeen(c, v);
    }
    forall v: Var
      ensures Built(c).Some? && NameOf(v) in Built(c).value && Arrives(c, v, Built(c).value[NameOf(v)])
    {
      EachVariable(c, v);
      FittingSeen(c, v);
      ValueArrives(c, v);
    }
    EachVariable(c, AppUid);
  }

  /** The firewall's own rules need less: no line break in any exported string. */
  lemma RulesReach(c: GuestConfig)
    requires Validates(c) && c.firewall.enabled && forall v :: !Breaks(c, v)
    ensures Built(c).Some? && NameOf(FirewallRules) in Built(c).value
    ensures Arrives(c, FirewallRules, Built(c).value[NameOf(FirewallRules)])
  {
    hide Arrives, Seen, Built, Breaks, ValueOf, TrimEnd, NameOf, Default;
    EachVariable(c, FirewallRules);
    AlwaysFit(c, FirewallRules);
    FittingSeen(c, FirewallRules);
    ValueArrives(c, FirewallRules);
  }

  // ----- an accepted configuration that does not arrive --------------------------------------

  /** For every accepted configuration with one resolver whose second line assigns the firewall's
      variable, the guest is compiled with that text for its rules. */
  lemma ResolverDecidesRules(c: GuestConfig, first: string, rules: string)
    requires c.nameservers == [first + "\ncargo:rustc-env=" + NameOf(FirewallRules) + "=" + rules]
    requires forall x :: x in "\0\n" ==> x !in first && x !in rules
    requires forall v :: v != Nameservers ==> !Breaks(c, v)
    ensures Built(c).Some? && NameOf(FirewallRules) in Built(c).value
    ensures Built(c).value[NameOf(FirewallRules)] == TrimEnd(rules)
  {
    var env, value := Environment(c), c.nameservers[0];
    assert '\0' in "\0\n" && '\n' in "\0\n";
    assert '\0' !in NameOf(FirewallRules) && '\0' !in "\ncargo:rustc-env=" by { NamesAreNames(FirewallRules); }
    assert ValueOf(c, Nameservers) == Some(value);
    hide NameOf, ValueOf, ValueIn, TrimEnd, DropNul, Environment, Breaks, Baked;
    EnvironmentHas(c, Nameservers);
    DropNulPlain(value);
    forall v: Var | v != Nameservers ensures '\n' !in ValueIn(env, v) {
      EnvironmentHas(c, v);
      SeenBreaks(c, v);
    }
    SecondLineWins(env, first, FirewallRules, rules);
  }

  /** Nothing is to be let in, and the one resolver is an address with a second line. */
  const TWO_LINES := GuestConfig(
    1000, 1000, [], 1024, 64, 0, 64, None, [], 64, 16, 64, 64, false, [], [],
    Firewall(true, []), true,
    ["9.9.9.9" + "\ncargo:rustc-env=" + NameOf(FirewallRules) + "=" + "tcp:1-65535"], None)

  lemma NumberInLine(n: nat)
    ensures '\n' !in Decimal(n)
  {
  }

  lemma OthersInLine(v: Var)
    requires v != Nameservers
    ensures !Breaks(TWO_LINES, v)
  {
    hide Decimal, NameOf;
    NumberInLine(1000);
    NumberInLine(1024);
    NumberInLine(64);
    NumberInLine(0);
    NumberInLine(16);
  }

  lemma TwoLinesValidates()
    ensures Validates(TWO_LINES)
  {
    NamesAreNames(FirewallRules);
    hide NameOf;
    assert ';' !in NameOf(FirewallRules);
    assert ';' !in TWO_LINES.nameservers[0];
  }

  lemma TwoLinesBreak()
    ensures ValueOf(TWO_LINES, Nameservers) == Some(TWO_LINES.nameservers[0])
    ensures !Fits(TWO_LINES, Nameservers)
  {
    hide NameOf, TrimEnd;
    var value := TWO_LINES.nameservers[0];
    assert value[7] == '\n';
  }

  /** The host accepts it, its firewall section exports the empty list, and the guest is compiled with
      a rule. */
  lemma AcceptedButChanged()
    ensures Validates(TWO_LINES) && ValueOf(TWO_LINES, FirewallRules) == Some("")
    ensures Built(TWO_LINES).Some? && NameOf(FirewallRules) in Built(TWO_LINES).value
    ensures Built(TWO_LINES).value[NameOf(FirewallRules)] == "tcp:1-65535"
    ensures !ConfigArrives(TWO_LINES)
  {
    hide Built, ConfigArrives, Fits, Breaks, NameOf, TrimEnd;
    TwoLinesValidates();
    TwoLinesBreak();
    ConfigReachesGuest(TWO_LINES);
    forall v: Var | v != Nameservers ensures !Breaks(TWO_LINES, v) {
      OthersInLine(v);
    }
    ResolverDecidesRules(TWO_LINES, "9.9.9.9", "tcp:1-65535");
    TrimEndKeeps("tcp:1-65535");
  }

  /** The same configuration without the resolver. */
  const NO_RESOLVER: GuestConfig := TWO_LINES.(nameservers := [])

  /** With it left out, everything arrives. */
  lemma AcceptedAndArrives()
    ensures Validates(NO_RESOLVER) && (forall v :: Fits(NO_RESOLVER, v)) && ConfigArrives(NO_RESOLVER)
  {
    hide Built, ConfigArrives, Carried, Decimal;
    forall v: Var ensures Fits(NO_RESOLVER, v) {
      if AlwaysFits(v) {
        AlwaysFit(NO_RESOLVER, v);
      }
    }
    ConfigReachesGuest(NO_RESOLVER);
  }
}
