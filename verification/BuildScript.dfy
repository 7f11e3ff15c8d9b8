/** The guest crate's build script, which prints every variable of its environment as a directive, and
    Cargo's reading of what it printed: the directives of the form `cargo:rustc-env=NAME=value`, one a
    line, each line trimmed, the last assignment of a name winning. */
module BuildScript {
  import opened ShellScript
  import opened Text
  import opened Wrappers

  /** The variables the build script passes through. */
  datatype Var =
    | PayloadDir | AppPath | AppUid | AppGid | AppEnv
    | Ipv6Static | Ipv6Gateway | Ipv6Iface
    | ExtraSysctls
    | LimitNofile | LimitNproc | LimitAsMb | LimitMemlockMb
    | TmpfsTmpMb | TmpfsRunMb | TmpfsShmMb | TmpfsVarTmpMb
    | FirewallRules | LandlockRo | LandlockRw | Nameservers | DnsSearch

  const PREFIX := "CARGO_UNIKERNEL_"

  function Suffix(v: Var): string {
    match v
    case PayloadDir => "PAYLOAD_DIR"
    case AppPath => "APP_PATH"
    case AppUid => "APP_UID"
    case AppGid => "APP_GID"
    case AppEnv => "APP_ENV"
    case Ipv6Static => "IPV6_STATIC"
    case Ipv6Gateway => "IPV6_GATEWAY"
    case Ipv6Iface => "IPV6_IFACE"
    case ExtraSysctls => "EXTRA_SYSCTLS"
    case LimitNofile => "LIMIT_NOFILE"
    case LimitNproc => "LIMIT_NPROC"
    case LimitAsMb => "LIMIT_AS_MB"
    case LimitMemlockMb => "LIMIT_MEMLOCK_MB"
    case TmpfsTmpMb => "TMPFS_TMP_MB"
    case TmpfsRunMb => "TMPFS_RUN_MB"
    case TmpfsShmMb => "TMPFS_SHM_MB"
    case TmpfsVarTmpMb => "TMPFS_VAR_TMP_MB"
    case FirewallRules => "FIREWALL_RULES"
    case LandlockRo => "LANDLOCK_RO"
    case LandlockRw => "LANDLOCK_RW"
    case Nameservers => "NAMESERVERS"
    case DnsSearch => "DNS_SEARCH"
  }

  function NameOf(v: Var): string {
    PREFIX + Suffix(v)
  }

  /** What is baked in when the variable is not set. */
  function Default(v: Var): string {
    match v
    case PayloadDir => "/payload"
    case AppPath => "/payload/app"
    case AppUid => "65534"
    case AppGid => "65534"
    case LimitNofile => "65536"
    case LimitNproc => "2048"
    case LimitAsMb => "0"
    case LimitMemlockMb => "64"
    case TmpfsTmpMb => "64"
    case TmpfsRunMb => "16"
    case TmpfsShmMb => "64"
    case TmpfsVarTmpMb => "64"
    case _ => ""
  }

  /** The order of the calls in the build script's `main`. */
  const PRINT_ORDER: seq<Var> := [
    PayloadDir, AppPath, AppUid, AppGid, AppEnv, Ipv6Static, Ipv6Gateway, Ipv6Iface, ExtraSysctls,
    LimitNofile, LimitNproc, LimitAsMb, LimitMemlockMb, TmpfsTmpMb, TmpfsRunMb, TmpfsShmMb, TmpfsVarTmpMb,
    FirewallRules, LandlockRo, LandlockRw, Nameservers, DnsSearch]

  // ----- the names ---------------------------------------------------------------------------

  /** The variable whose name has this length and these characters after the common prefix. */
  function VarWith(length: nat, fifth: char, seventh: char, last: char): Var {
    match length
    case 7 => if fifth == 'U' then AppUid else if fifth == 'G' then AppGid else AppEnv
    case 8 => AppPath
    case 10 => if fifth == '_' then Ipv6Iface else DnsSearch
    case 11 =>
      if seventh == 'D' then PayloadDir else if seventh == 'T' then Ipv6Static
      else if seventh == 'N' then LimitNproc else if seventh == 'A' then LimitAsMb
      else if seventh == 'R' then Nameservers else if last == 'O' then LandlockRo else LandlockRw
    case 12 =>
      if seventh == 'A' then Ipv6Gateway else if seventh == 'N' then LimitNofile
      else if seventh == 'T' then TmpfsTmpMb else if seventh == 'R' then TmpfsRunMb else TmpfsShmMb
    case 13 => ExtraSysctls
    case 14 => FirewallRules
    case _ => if fifth == 'T' then LimitMemlockMb else TmpfsVarTmpMb
  }

  lemma SuffixTells(v: Var)
    ensures var s := Suffix(v);
      |s| >= 7 && VarWith(|s|, s[4], s[6], s[|s| - 1]) == v
  {
  }

  lemma NamesDiffer(v: Var, w: Var)
    ensures NameOf(v) == NameOf(w) <==> v == w
  {
    if NameOf(v) == NameOf(w) {
      hide Suffix, VarWith;
      assert NameOf(v)[|PREFIX|..] == Suffix(v) && NameOf(w)[|PREFIX|..] == Suffix(w);
      SuffixTells(v);
      SuffixTells(w);
    }
  }

  predicate NameText(s: string) {
    forall i :: 0 <= i < |s| ==> NameStart(s[i]) || '0' <= s[i] <= '9'
  }

  lemma LimitSuffixes()
    ensures NameText("LIMIT_NOFILE") && NameText("LIMIT_NPROC") && NameText("LIMIT_AS_MB")
    ensures NameText("LIMIT_MEMLOCK_MB")
  {
  }

  lemma TmpfsSuffixes()
    ensures NameText("TMPFS_TMP_MB") && NameText("TMPFS_RUN_MB") && NameText("TMPFS_SHM_MB")
    ensures NameText("TMPFS_VAR_TMP_MB")
  {
  }

  lemma NetworkSuffixes()
    ensures NameText("IPV6_STATIC") && NameText("IPV6_GATEWAY") && NameText("IPV6_IFACE")
    ensures NameText("FIREWALL_RULES") && NameText("NAMESERVERS") && NameText("DNS_SEARCH")
  {
  }

  lemma AppSuffixes()
    ensures NameText("PAYLOAD_DIR") && NameText("APP_PATH") && NameText("APP_UID") && NameText("APP_GID")
    ensures NameText("APP_ENV") && NameText("EXTRA_SYSCTLS") && NameText("LANDLOCK_RO") && NameText("LANDLOCK_RW")
  {
  }

  lemma SuffixIsName(v: Var)
    ensures NameText(Suffix(v))
  {
    hide NameText;
    LimitSuffixes();
    TmpfsSuffixes();
    NetworkSuffixes();
    AppSuffixes();
  }

  lemma NamesAreNames(v: Var)
    ensures IsName(NameOf(v))
  {
    SuffixIsName(v);
    hide Suffix;
    assert forall i :: 0 <= i < |PREFIX| ==> NameStart(PREFIX[i]);
  }

  lemma EveryVarPrinted(v: Var)
    ensures v in PRINT_ORDER
  {
    var position :=
      match v
      case PayloadDir => 0 case AppPath => 1 case AppUid => 2 case AppGid => 3 case AppEnv => 4
      case Ipv6Static => 5 case Ipv6Gateway => 6 case Ipv6Iface => 7 case ExtraSysctls => 8
      case LimitNofile => 9 case LimitNproc => 10 case LimitAsMb => 11 case LimitMemlockMb => 12
      case TmpfsTmpMb => 13 case TmpfsRunMb => 14 case TmpfsShmMb => 15 case TmpfsVarTmpMb => 16
      case FirewallRules => 17 case LandlockRo => 18 case LandlockRw => 19 case Nameservers => 20
      case DnsSearch => 21;
    assert PRINT_ORDER[position] == v;
  }

  // ----- the build script --------------------------------------------------------------------

  /** What one call prints: the directive, and a second one naming the variable. */
  function Passthrough(name: string, value: string): string {
    "cargo:rustc-env=" + name + "=" + value + "\n" + "cargo:rerun-if-env-changed=" + name + "\n"
  }

  function ValueIn(env: map<string, string>, v: Var): string {
    if NameOf(v) in env then env[NameOf(v)] else Default(v)
  }

  function Prints(env: map<string, string>, vars: seq<Var>): string {
    if vars == [] then "" else Passthrough(NameOf(vars[0]), ValueIn(env, vars[0])) + Prints(env, vars[1..])
  }

  // ----- Cargo -------------------------------------------------------------------------------

  /** The text behind either spelling of the directive. */
  function Directive(line: string): Option<string> {
    if "cargo::rustc-env=" <= line then Some(line[17..])
    else if "cargo:rustc-env=" <= line then Some(line[16..])
    else None
  }

  /** One line's effect on the compiler's environment; `None` is a directive without an assignment,
      which fails the build. */
  function ReadLine(line: string, baked: map<string, string>): Option<map<string, string>> {
    match Directive(Trim(line))
    case None => Some(baked)
    case Some(text) =>
      match SplitOnce(text, '=')
      case None => None
      case Some((name, value)) => Some(baked[name := value])
  }

  function ReadLines(lines: seq<string>, baked: map<string, string>): Option<map<string, string>> {
    if lines == [] then Some(baked)
    else
      match ReadLine(lines[0], baked)
      case None => None
      case Some(more) => ReadLines(lines[1..], more)
  }

  function ReadOutput(output: string, baked: map<string, string>): Option<map<string, string>> {
    ReadLines(Split(output, '\n'), baked)
  }

  /** What the guest's crate is compiled with when the build script runs in `env`. */
  function Baked(env: map<string, string>): Option<map<string, string>> {
    ReadOutput(Prints(env, PRINT_ORDER), map[])
  }

  // ----- reading one line --------------------------------------------------------------------

  lemma TrimmedDirective(name: string, value: string)
    ensures Trim("cargo:rustc-env=" + name + "=" + value) == "cargo:rustc-env=" + name + "=" + TrimEnd(value)
  {
    var line := "cargo:rustc-env=" + name + "=" + value;
    assert line[0] == 'c' && TrimStart(line) == line;
    TrimEndStops("cargo:rustc-env=" + name, '=', value);
  }

  lemma AssignmentReads(name: string, value: string, baked: map<string, string>)
    requires '=' !in name
    ensures ReadLine("cargo:rustc-env=" + name + "=" + value, baked) == Some(baked[name := TrimEnd(value)])
  {
    hide Trim, TrimEnd;
    TrimmedDirective(name, value);
    var text := name + ['='] + TrimEnd(value);
    var line := "cargo:rustc-env=" + name + "=" + TrimEnd(value);
    assert line == "cargo:rustc-env=" + text && line[16..] == text && line[6] == 'r';
    assert "cargo:rustc-env=" <= line;
    assert "cargo::rustc-env="[6] == ':';
    assert Directive(line) == Some(text);
    SplitOnceAt(name, '=', TrimEnd(value));
  }

  lemma RerunReads(name: string, baked: map<string, string>)
    ensures ReadLine("cargo:rerun-if-env-changed=" + name, baked) == Some(baked)
  {
    var line := "cargo:rerun-if-env-changed=" + name;
    assert line[0] == 'c' && TrimStart(line) == line;
    hide IsWhitespace;
    TrimEndExactly(line);
    hide TrimEnd;
    var trimmed := Trim(line);
    assert trimmed <= line && line[6] == 'r' && line[7] == 'e';
    assert "cargo::rustc-env="[6] == ':' && "cargo:rustc-env="[7] == 'u';
    assert |trimmed| > 7 ==> trimmed[6] == line[6] && trimmed[7] == line[7];
  }

  // ----- reading the output of a call --------------------------------------------------------

  lemma FirstLine(line: string, rest: string, baked: map<string, string>)
    requires '\n' !in line
    ensures ReadOutput(line + "\n" + rest, baked) ==
      if ReadLine(line, baked).Some? then ReadOutput(rest, ReadLine(line, baked).value) else None
  {
    hide ReadLine, Split;
    assert line + "\n" + rest == line + ['\n'] + rest;
    SplitFirst(line, '\n', rest);
    assert ([line] + Split(rest, '\n'))[1..] == Split(rest, '\n');
  }

  lemma PlainName(name: string)
    requires IsName(name)
    ensures '=' !in name && '\n' !in name
  {
  }

  lemma RerunSkipped(name: string, rest: string, baked: map<string, string>)
    requires '\n' !in name
    ensures ReadOutput("cargo:rerun-if-env-changed=" + name + "\n" + rest, baked) == ReadOutput(rest, baked)
  {
    hide ReadOutput, ReadLine;
    RerunReads(name, baked);
    FirstLine("cargo:rerun-if-env-changed=" + name, rest, baked);
  }

  lemma LineAssigns(name: string, value: string, rest: string, baked: map<string, string>)
    requires '=' !in name && '\n' !in name && '\n' !in value
    ensures ReadOutput("cargo:rustc-env=" + name + "=" + value + "\n" + rest, baked)
         == ReadOutput(rest, baked[name := TrimEnd(value)])
  {
    hide ReadOutput, ReadLine, TrimEnd;
    AssignmentReads(name, value, baked);
    FirstLine("cargo:rustc-env=" + name + "=" + value, rest, baked);
  }

  /** A value of one line arrives trimmed at its end, and nothing else happens. */
  lemma OneLineReads(name: string, value: string, rest: string, baked: map<string, string>)
    requires IsName(name) && '\n' !in value
    ensures ReadOutput(Passthrough(name, value) + rest, baked) == ReadOutput(rest, baked[name := TrimEnd(value)])
  {
    hide ReadOutput, TrimEnd, IsName;
    PlainName(name);
    var tail := "cargo:rerun-if-env-changed=" + name + "\n" + rest;
    assert Passthrough(name, value) + rest == "cargo:rustc-env=" + name + "=" + value + "\n" + tail;
    LineAssigns(name, value, tail, baked);
    RerunSkipped(name, rest, baked[name := TrimEnd(value)]);
  }

  /** A second line of a value that has the form of a directive is one: its assignment is made too. */
  lemma SecondLineReads(name: string, first: string, other: string, value: string, rest: string,
                        baked: map<string, string>)
    requires IsName(name) && IsName(other) && '\n' !in first && '\n' !in value
    ensures ReadOutput(Passthrough(name, first + "\ncargo:rustc-env=" + other + "=" + value) + rest, baked)
         == ReadOutput(rest, baked[name := TrimEnd(first)][other := TrimEnd(value)])
  {
    hide ReadOutput, TrimEnd, IsName;
    PlainName(name);
    PlainName(other);
    var tail := "cargo:rerun-if-env-changed=" + name + "\n" + rest;
    var second := "cargo:rustc-env=" + other + "=" + value + "\n" + tail;
    var whole := first + "\ncargo:rustc-env=" + other + "=" + value;
    assert whole == first + "\n" + ("cargo:rustc-env=" + other + "=" + value);
    assert Passthrough(name, whole) + rest == "cargo:rustc-env=" + name + "=" + first + "\n" + second;
    LineAssigns(name, first, second, baked);
    LineAssigns(other, value, tail, baked[name := TrimEnd(first)]);
    RerunSkipped(name, rest, baked[name := TrimEnd(first)][other := TrimEnd(value)]);
  }

  // ----- reading it all ----------------------------------------------------------------------

  function Assigned(env: map<string, string>, vars: seq<Var>, baked: map<string, string>): map<string, string> {
    if vars == [] then baked
    else Assigned(env, vars[1..], baked[NameOf(vars[0]) := TrimEnd(ValueIn(env, vars[0]))])
  }

  predicate OneLineEach(env: map<string, string>, vars: seq<Var>) {
    forall v :: v in vars ==> '\n' !in ValueIn(env, v)
  }

  lemma {:induction false} PrintsRead(env: map<string, string>, vars: seq<Var>, rest: string, baked: map<string, string>)
    requires OneLineEach(env, vars)
    ensures ReadOutput(Prints(env, vars) + rest, baked) == ReadOutput(rest, Assigned(env, vars, baked))
  {
    hide ReadOutput, Passthrough, NameOf, ValueIn, TrimEnd;
    if vars == [] {
      assert Prints(env, vars) + rest == rest;
    } else {
      var v := vars[0];
      var tail := Prints(env, vars[1..]) + rest;
      assert Prints(env, vars) + rest == Passthrough(NameOf(v), ValueIn(env, v)) + tail;
      NamesAreNames(v);
      OneLineReads(NameOf(v), ValueIn(env, v), tail, baked);
      PrintsRead(env, vars[1..], rest, baked[NameOf(v) := TrimEnd(ValueIn(env, v))]);
    }
  }

  lemma {:induction false} AssignedAt(env: map<string, string>, vars: seq<Var>, baked: map<string, string>, v: Var)
    ensures var after := Assigned(env, vars, baked);
      if v in vars then NameOf(v) in after && after[NameOf(v)] == TrimEnd(ValueIn(env, v))
      else (NameOf(v) in after <==> NameOf(v) in baked) && (NameOf(v) in baked ==> after[NameOf(v)] == baked[NameOf(v)])
  {
    hide NameOf, ValueIn, TrimEnd;
    if vars != [] {
      NamesDiffer(v, vars[0]);
      assert v in vars <==> v == vars[0] || v in vars[1..];
      AssignedAt(env, vars[1..], baked[NameOf(vars[0]) := TrimEnd(ValueIn(env, vars[0]))], v);
    }
  }

  lemma EmptyOutput(baked: map<string, string>)
    ensures ReadOutput("", baked) == Some(baked)
  {
    assert Split("", '\n') == [""];
    assert ReadLine("", baked) == Some(baked) by { assert Trim("") == "" && Directive("") == None; }
    var none: seq<string> := [];
    assert [""][1..] == none && ReadLines(none, baked) == Some(baked);
  }

  /** As long as no value has a line break, each variable is compiled in as the build script saw it,
      trimmed at its end, whatever the others hold. */
  lemma BakesEach(env: map<string, string>, v: Var)
    requires OneLineEach(env, PRINT_ORDER)
    ensures Baked(env).Some? && NameOf(v) in Baked(env).value
    ensures Baked(env).value[NameOf(v)] == TrimEnd(ValueIn(env, v))
  {
    hide NameOf, ValueIn, TrimEnd, ReadOutput, Prints, OneLineEach, PRINT_ORDER;
    assert Prints(env, PRINT_ORDER) + "" == Prints(env, PRINT_ORDER);
    PrintsRead(env, PRINT_ORDER, "", map[]);
    EmptyOutput(Assigned(env, PRINT_ORDER, map[]));
    AssignedAt(env, PRINT_ORDER, map[], v);
    EveryVarPrinted(v);
  }

  lemma {:induction false} PrintsConcat(env: map<string, string>, vars: seq<Var>, more: seq<Var>)
    ensures Prints(env, vars + more) == Prints(env, vars) + Prints(env, more)
  {
    hide Passthrough, NameOf, ValueIn;
    if vars == [] {
      assert vars + more == more;
    } else {
      assert (vars + more)[1..] == vars[1..] + more;
      PrintsConcat(env, vars[1..], more);
    }
  }

  lemma BeforeNameservers()
    ensures |PRINT_ORDER| == 22 && PRINT_ORDER == PRINT_ORDER[..20] + [Nameservers] + [DnsSearch]
    ensures Nameservers !in PRINT_ORDER[..20]
  {
  }

  lemma PrintsSplit(env: map<string, string>, before: seq<Var>, v: Var, last: Var)
    ensures Prints(env, before + [v] + [last])
         == Prints(env, before) + (Passthrough(NameOf(v), ValueIn(env, v)) + Prints(env, [last]))
  {
    hide NameOf, ValueIn, Passthrough, Prints;
    PrintsConcat(env, before + [v], [last]);
    PrintsConcat(env, before, [v]);
    OnePrint(env, v);
  }

  lemma ReadsPast(env: map<string, string>, before: seq<Var>, rest: string) returns (baked: map<string, string>)
    requires Nameservers !in before && forall v :: v != Nameservers ==> '\n' !in ValueIn(env, v)
    ensures ReadOutput(Prints(env, before) + rest, map[]) == ReadOutput(rest, baked)
  {
    hide ReadOutput, ValueIn;
    baked := Assigned(env, before, map[]);
    PrintsRead(env, before, rest, map[]);
  }

  /** Up to the resolver list, everything is read as it was printed. */
  lemma ReadsUpToNameservers(env: map<string, string>) returns (baked: map<string, string>)
    requires forall v :: v != Nameservers ==> '\n' !in ValueIn(env, v)
    ensures Baked(env)
         == ReadOutput(Passthrough(NameOf(Nameservers), ValueIn(env, Nameservers)) + Prints(env, [DnsSearch]), baked)
  {
    var before := PRINT_ORDER[..20];
    BeforeNameservers();
    hide NameOf, ValueIn, ReadOutput, PRINT_ORDER, Passthrough, Prints;
    PrintsSplit(env, before, Nameservers, DnsSearch);
    var printed := Passthrough(NameOf(Nameservers), ValueIn(env, Nameservers));
    baked := ReadsPast(env, before, printed + Prints(env, [DnsSearch]));
  }

  /** The search domain, printed last, changes no other variable. */
  lemma ReadsDnsSearch(env: map<string, string>, baked: map<string, string>, w: Var)
    requires '\n' !in ValueIn(env, DnsSearch) && w != DnsSearch && NameOf(w) in baked
    ensures ReadOutput(Prints(env, [DnsSearch]), baked).Some?
    ensures var after := ReadOutput(Prints(env, [DnsSearch]), baked).value;
      NameOf(w) in after && after[NameOf(w)] == baked[NameOf(w)]
  {
    hide NameOf, ValueIn, TrimEnd, ReadOutput, Passthrough, Prints, Assigned;
    assert Prints(env, [DnsSearch]) + "" == Prints(env, [DnsSearch]);
    PrintsRead(env, [DnsSearch], "", baked);
    EmptyOutput(Assigned(env, [DnsSearch], baked));
    AssignedAt(env, [DnsSearch], baked, w);
  }

  /** Without that condition it is not so. The resolver list is printed after every variable but the
      search domain: a second line of it that has the form of a directive decides what any of them is
      compiled in as. */
  lemma SecondLineWins(env: map<string, string>, first: string, w: Var, value: string)
    requires ValueIn(env, Nameservers) == first + "\ncargo:rustc-env=" + NameOf(w) + "=" + value
    requires w != DnsSearch && '\n' !in first && '\n' !in value
    requires forall v :: v != Nameservers ==> '\n' !in ValueIn(env, v)
    ensures Baked(env).Some? && NameOf(w) in Baked(env).value && Baked(env).value[NameOf(w)] == TrimEnd(value)
  {
    hide NameOf, ValueIn, TrimEnd, ReadOutput, PRINT_ORDER, Passthrough, IsName, Prints, Assigned, Baked;
    var baked := ReadsUpToNameservers(env);
    NamesAreNames(Nameservers);
    NamesAreNames(w);
    SecondLineReads(NameOf(Nameservers), first, NameOf(w), value, Prints(env, [DnsSearch]), baked);
    ReadsDnsSearch(env, baked[NameOf(Nameservers) := TrimEnd(first)][NameOf(w) := TrimEnd(value)], w);
  }

  lemma OnePrint(env: map<string, string>, v: Var)
    ensures Prints(env, [v]) == Passthrough(NameOf(v), ValueIn(env, v))
  {
    hide NameOf, ValueIn, Passthrough;
    assert [v][1..] == [];
    assert Passthrough(NameOf(v), ValueIn(env, v)) + "" == Passthrough(NameOf(v), ValueIn(env, v));
  }

  predicate OneLined(baked: map<string, string>) {
    forall n :: n in baked ==> '\n' !in baked[n]
  }

  lemma {:induction false} TrimKeepsOut(s: string, c: char)
    requires c !in s
    ensures c !in Trim(s)
  {
    TrimStartSuffix(s);
    TrimEndExactly(TrimStart(s));
  }

  lemma {:induction false} TrimStartSuffix(s: string)
    ensures |TrimStart(s)| <= |s| && TrimStart(s) == s[|s| - |TrimStart(s)|..]
  {
    if s != "" && IsWhitespace(s[0]) {
      TrimStartSuffix(s[1..]);
    }
  }

  lemma ReadLineOneLined(line: string, baked: map<string, string>)
    requires '\n' !in line && OneLined(baked) && ReadLine(line, baked).Some?
    ensures OneLined(ReadLine(line, baked).value)
  {
    TrimKeepsOut(line, '\n');
    hide Trim;
    match Directive(Trim(line))
    case None =>
    case Some(text) =>
      assert '\n' !in text;
      var (name, value) := SplitOnce(text, '=').value;
      assert value == text[|name| + 1..];
  }

  lemma {:induction false} ReadLinesOneLined(lines: seq<string>, baked: map<string, string>)
    requires forall i :: 0 <= i < |lines| ==> '\n' !in lines[i]
    requires OneLined(baked) && ReadLines(lines, baked).Some?
    ensures OneLined(ReadLines(lines, baked).value)
  {
    hide ReadLine, OneLined;
    if lines != [] {
      ReadLineOneLined(lines[0], baked);
      ReadLinesOneLined(lines[1..], ReadLine(lines[0], baked).value);
    }
  }

  /** Whatever was printed, nothing with a line break in it is ever compiled in. */
  lemma NothingBreaksLines(env: map<string, string>)
    requires Baked(env).Some?
    ensures OneLined(Baked(env).value)
  {
    hide ReadLines, Prints, PRINT_ORDER;
    ReadLinesOneLined(Split(Prints(env, PRINT_ORDER), '\n'), map[]);
  }
}
