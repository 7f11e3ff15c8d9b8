/** Kernel configuration: fragments of directives resolved into one last-write-wins map plus the
    order keys were first seen in, applied to `.config` once per key, and verified on whatever
    `make olddefconfig` has left of them. */
module KernelConfig {
  import opened Text
  import opened Wrappers

  datatype Directive = Enable | Disable | SetStr(value: string) | SetVal(value: string)

  type Setting = (string, Directive)

  datatype ParseError = MalformedLine(text: string) | InvalidKey(key: string) | UnrecognizedDirective(text: string)

  // ----- one line ----------------------------------------------------------------------------

  /** `[:space:]` in the C locale. */
  predicate IsSpace(c: char) {
    c == ' ' || '\t' <= c <= '\r'
  }

  function TrimLeft(s: string): (r: string)
    ensures |r| <= |s| && r == s[|s| - |r|..]
  {
    if s != "" && IsSpace(s[0]) then TrimLeft(s[1..]) else s
  }

  function TrimRight(s: string): (r: string)
    ensures |r| <= |s| && r == s[..|r|]
  {
    if s != "" && IsSpace(s[|s| - 1]) then TrimRight(s[..|s| - 1]) else s
  }

  function DropCr(s: string): (r: string)
    ensures |r| <= |s| && r == s[..|r|]
  {
    if s != "" && s[|s| - 1] == '\r' then s[..|s| - 1] else s
  }

  function Strip(raw: string): string {
    TrimRight(TrimLeft(DropCr(raw)))
  }

  predicate KeyChar(c: char) {
    'A' <= c <= 'Z' || '0' <= c <= '9' || c == '_'
  }

  predicate IsKey(s: string) {
    |s| > 7 && s[..7] == "CONFIG_" && forall i :: 7 <= i < |s| ==> KeyChar(s[i])
  }

  function ParseDirective(s: string): Option<Directive> {
    if s == "enable" then Some(Enable)
    else if s == "disable" then Some(Disable)
    else if "set-str:" <= s then Some(SetStr(s[8..]))
    else if "set-val:" <= s then Some(SetVal(s[8..]))
    else None
  }

  /** A blank or comment line says nothing. */
  function ParseLine(raw: string): Result<Option<Setting>, ParseError> {
    var line := Strip(raw);
    if line == "" || line[0] == '#' then Ok(None)
    else
      match SplitOnce(line, '=')
      case None => Err(MalformedLine(line))
      case Some((key, text)) =>
        if !IsKey(key) then Err(InvalidKey(key))
        else
          match ParseDirective(text)
          case None => Err(UnrecognizedDirective(text))
          case Some(directive) => Ok(Some((key, directive)))
  }

  predicate OneLine(d: Directive) {
    (d.SetStr? || d.SetVal?) ==> '\n' !in d.value
  }

  lemma DirectiveIsOneLine(text: string)
    requires '\n' !in text && ParseDirective(text).Some?
    ensures OneLine(ParseDirective(text).value)
  {
    if ParseDirective(text).value.SetStr? || ParseDirective(text).value.SetVal? {
      assert forall i :: 0 <= i < |text[8..]| ==> text[8..][i] == text[i + 8];
    }
  }

  lemma SettingsAreOneLine(raw: string)
    requires '\n' !in raw && ParseLine(raw).Ok? && ParseLine(raw).value.Some?
    ensures IsKey(ParseLine(raw).value.value.0) && OneLine(ParseLine(raw).value.value.1)
  {
    hide ParseDirective, TrimLeft, TrimRight, SplitOnce, IsKey;
    var line := TrimRight(TrimLeft(DropCr(raw)));
    assert '\n' !in TrimLeft(DropCr(raw));
    assert '\n' !in line;
    var (key, text) := SplitOnce(line, '=').value;
    assert text == line[|key| + 1..];
    DirectiveIsOneLine(text);
  }

  type Settings = Result<seq<Setting>, ParseError>

  function Prepend(first: seq<Setting>, rest: Settings): Settings {
    match rest
    case Err(e) => Err(e)
    case Ok(more) => Ok(first + more)
  }

  lemma PrependTwice(a: seq<Setting>, b: seq<Setting>, rest: Settings)
    ensures Prepend(a + b, rest) == Prepend(a, Prepend(b, rest))
    ensures Prepend([], rest) == rest
  {
    if rest.Ok? {
      assert a + b + rest.value == a + (b + rest.value);
      assert [] + rest.value == rest.value;
    }
  }

  /** Every setting of some lines in turn, or the first thing wrong with them. */
  function SettingsOf(lines: seq<string>): Settings {
    if lines == [] then Ok([])
    else
      match ParseLine(lines[0])
      case Err(e) => Err(e)
      case Ok(first) => Prepend(if first.Some? then [first.value] else [], SettingsOf(lines[1..]))
  }

  function LinesOf(fragments: seq<string>): seq<string> {
    if fragments == [] then [] else Split(fragments[0], '\n') + LinesOf(fragments[1..])
  }

  // ----- resolution --------------------------------------------------------------------------

  function LastWrite(stream: seq<Setting>): map<string, Directive> {
    if stream == [] then map[]
    else LastWrite(stream[..|stream| - 1])[stream[|stream| - 1].0 := stream[|stream| - 1].1]
  }

  function FirstSeen(stream: seq<Setting>): seq<string> {
    if stream == [] then []
    else
      var before := FirstSeen(stream[..|stream| - 1]);
      if stream[|stream| - 1].0 in before then before else before + [stream[|stream| - 1].0]
  }

  predicate Distinct(keys: seq<string>) {
    forall i, j :: 0 <= i < j < |keys| ==> keys[i] != keys[j]
  }

  /** The order list names every key of the map once, and nothing else. */
  lemma {:induction false} OrderIsDomain(stream: seq<Setting>)
    ensures Distinct(FirstSeen(stream))
    ensures forall k :: k in FirstSeen(stream) <==> k in LastWrite(stream)
    ensures forall k :: k in LastWrite(stream) <==> exists i :: 0 <= i < |stream| && stream[i].0 == k
  {
    if stream != [] {
      var before, last := stream[..|stream| - 1], stream[|stream| - 1];
      OrderIsDomain(before);
      forall i | 0 <= i < |stream| ensures stream[i].0 in LastWrite(stream) {
        assert i < |before| ==> before[i] == stream[i];
      }
      forall k | k in LastWrite(stream) ensures exists i :: 0 <= i < |stream| && stream[i].0 == k {
        if k == last.0 {
          assert stream[|stream| - 1].0 == k;
        } else {
          assert k in LastWrite(before);
          var i :| 0 <= i < |before| && before[i].0 == k;
          assert stream[i].0 == k;
        }
      }
    }
  }

  predicate WellFormed(stream: seq<Setting>) {
    forall i :: 0 <= i < |stream| ==> IsKey(stream[i].0) && OneLine(stream[i].1)
  }

  lemma OneMoreSetting(stream: seq<Setting>, key: string, directive: Directive)
    ensures var longer := stream + [(key, directive)];
      && LastWrite(longer) == LastWrite(stream)[key := directive]
      && FirstSeen(longer) == if key in FirstSeen(stream) then FirstSeen(stream) else FirstSeen(stream) + [key]
  {
    assert (stream + [(key, directive)])[..|stream|] == stream;
  }

  class Resolver {
    var directives: map<string, Directive>
    var order: seq<string>
    ghost var stream: seq<Setting>  // every setting read so far, in order

    ghost predicate Valid()
      reads this
    {
      directives == LastWrite(stream) && order == FirstSeen(stream) && WellFormed(stream)
    }

    constructor ()
      ensures Valid() && stream == []
    {
      directives, order, stream := map[], [], [];
    }

    method Record(key: string, directive: Directive)
      requires Valid() && IsKey(key) && OneLine(directive)
      modifies this
      ensures Valid() && stream == old(stream) + [(key, directive)]
    {
      OrderIsDomain(stream);
      OneMoreSetting(stream, key, directive);
      hide LastWrite, FirstSeen, IsKey, OneLine, Distinct;
      if key !in directives {
        order := order + [key];
      }
      directives := directives[key := directive];
      stream := stream + [(key, directive)];
    }

    /** Reads one fragment after those before it: all of its settings, or its first error. */
    method ParseFragment(text: string) returns (r: Result<(), ParseError>)
      requires Valid()
      modifies this
      ensures Valid()
      ensures match SettingsOf(Split(text, '\n'))
              case Ok(settings) => r.Ok? && stream == old(stream) + settings
              case Err(e) => r == Err(e)
    {
      hide ParseLine, Prepend, LastWrite, FirstSeen, Split;
      var lines := Split(text, '\n');
      var i := 0;
      while i < |lines|
        invariant 0 <= i <= |lines| && Valid()
        invariant Prepend(stream, SettingsOf(lines[i..])) == Prepend(old(stream), SettingsOf(lines))
      {
        ghost var rest, before := SettingsOf(lines[i + 1..]), stream;
        assert lines[i..][1..] == lines[i + 1..];
        var parsed := ParseLine(lines[i]);
        match parsed {
          case Err(e) =>
            PrependDone(stream, Err(e), old(stream), SettingsOf(lines));
            return Err(e);
          case Ok(setting) =>
            if setting.Some? {
              SettingsAreOneLine(lines[i]);
              Record(setting.value.0, setting.value.1);
              PrependTwice(before, [setting.value], rest);
            } else {
              PrependTwice(before, [], rest);
              assert before + [] == before;
            }
        }
        i := i + 1;
      }
      PrependDone(stream, Ok([]), old(stream), SettingsOf(lines));
      r := Ok(());
    }
  }

  lemma PrependDone(a: seq<Setting>, rest: Settings, b: seq<Setting>, whole: Settings)
    requires Prepend(a, rest) == Prepend(b, whole)
    ensures rest.Err? ==> whole == rest
    ensures rest == Ok([]) ==> whole.Ok? && a == b + whole.value
  {
  }

  lemma {:induction false} SettingsConcat(a: seq<string>, b: seq<string>)
    ensures SettingsOf(a + b) ==
            match SettingsOf(a)
            case Err(e) => Err(e)
            case Ok(first) => Prepend(first, SettingsOf(b))
  {
    hide ParseLine;
    if a == [] {
      assert a + b == b;
      PrependTwice([], [], SettingsOf(b));
    } else {
      assert (a + b)[1..] == a[1..] + b;
      SettingsConcat(a[1..], b);
      if ParseLine(a[0]).Ok? && SettingsOf(a[1..]).Ok? {
        var first := ParseLine(a[0]).value;
        PrependTwice(if first.Some? then [first.value] else [], SettingsOf(a[1..]).value, SettingsOf(b));
      }
    }
  }

  /** All fragments, in order: fails exactly when the concatenation of their lines does. */
  method Resolve(fragments: seq<string>)
      returns (r: Result<(), ParseError>, directives: map<string, Directive>, order: seq<string>)
    ensures match SettingsOf(LinesOf(fragments))
            case Err(e) => r == Err(e)
            case Ok(stream) =>
              r.Ok? && directives == LastWrite(stream) && order == FirstSeen(stream) && WellFormed(stream)
  {
    hide ParseLine, SettingsOf, Prepend, LastWrite, FirstSeen, Split;
    var resolver := new Resolver();
    directives, order := map[], [];
    var i := 0;
    PrependTwice([], [], SettingsOf(LinesOf(fragments)));
    assert fragments[0..] == fragments;
    while i < |fragments|
      invariant 0 <= i <= |fragments| && resolver.Valid() && fresh(resolver)
      invariant Prepend(resolver.stream, SettingsOf(LinesOf(fragments[i..]))) ==
                Prepend([], SettingsOf(LinesOf(fragments)))
    {
      ghost var lines, rest, before := Split(fragments[i], '\n'), LinesOf(fragments[i + 1..]), resolver.stream;
      assert fragments[i..][1..] == fragments[i + 1..];
      SettingsConcat(lines, rest);
      r := resolver.ParseFragment(fragments[i]);
      if r.Err? {
        PrependDone(before, Err(r.error), [], SettingsOf(LinesOf(fragments)));
        assert SettingsOf(LinesOf(fragments)) == Err(r.error);
        return;
      }
      PrependTwice(before, SettingsOf(lines).value, SettingsOf(rest));
      i := i + 1;
    }
    NoLinesLeft(LinesOf(fragments[i..]));
    PrependDone(resolver.stream, Ok([]), [], SettingsOf(LinesOf(fragments)));
    assert SettingsOf(LinesOf(fragments)).Ok?;
    assert [] + SettingsOf(LinesOf(fragments)).value == resolver.stream;
    assert SettingsOf(LinesOf(fragments)).value == resolver.stream;
    r, directives, order := Ok(()), resolver.directives, resolver.order;
  }

  lemma NoLinesLeft(lines: seq<string>)
    requires lines == []
    ensures SettingsOf(lines) == Ok([])
  {
  }

  // ----- `.config` ---------------------------------------------------------------------------

  /** The line `scripts/config` writes for a directive. */
  function LineFor(key: string, d: Directive): string {
    match d
    case Enable => key + "=y"
    case Disable => "# " + key + " is not set"
    case SetStr(value) => key + "=\"" + value + "\""
    case SetVal(value) => key + "=" + value
  }

  /** `grep -E "^(KEY=|# KEY is not set)"`. */
  predicate About(line: string, key: string) {
    key + "=" <= line || "# " + key + " is not set" <= line
  }

  lemma AboutOne(line: string, j: string, k: string)
    requires IsKey(j) && IsKey(k) && About(line, j) && About(line, k)
    ensures j == k
  {
    assert j[0] == 'C' && k[0] == 'C';
    assert (j + "=")[0] == 'C' && ("# " + k + " is not set")[0] == '#';
    assert (k + "=")[0] == 'C' && ("# " + j + " is not set")[0] == '#';
    if j + "=" <= line && k + "=" <= line {
      PrefixAndStop(line, j, "=", k, "=");
    } else if "# " + j + " is not set" <= line && "# " + k + " is not set" <= line {
      assert j + " is not set" <= line[2..] && k + " is not set" <= line[2..];
      PrefixAndStop(line[2..], j, " is not set", k, " is not set");
    }
  }

  /** Two keys cut out of one text, each followed by something no key contains. */
  lemma PrefixAndStop(line: string, j: string, a: string, k: string, b: string)
    requires IsKey(j) && IsKey(k) && |a| > 0 && |b| > 0 && !KeyChar(a[0]) && !KeyChar(b[0])
    requires j + a <= line && k + b <= line
    ensures j == k
  {
    AllKeyChars(j);
    AllKeyChars(k);
    assert line[|j|] == (j + a)[|j|] == a[0];
    assert line[|k|] == (k + b)[|k|] == b[0];
    assert line[..|j|] == j && line[..|k|] == k;
  }

  lemma AllKeyChars(k: string)
    requires IsKey(k)
    ensures forall i :: 0 <= i < |k| ==> KeyChar(k[i])
  {
    assert forall j :: 0 <= j < 7 ==> KeyChar("CONFIG_"[j]);
    assert forall i :: 0 <= i < 7 ==> k[i] == k[..7][i];
  }

  lemma LineForIsAbout(key: string, d: Directive)
    ensures About(LineFor(key, d), key)
  {
    match d
    case Enable =>
    case Disable =>
    case SetStr(value) =>
      assert LineFor(key, d) == (key + "=") + ("\"" + value + "\"");
    case SetVal(value) =>
  }

  predicate Mentions(config: seq<string>, key: string) {
    exists i :: 0 <= i < |config| && About(config[i], key)
  }

  /** What `scripts/config` does: every line about the key becomes the new one, or it is appended. */
  function SetLine(config: seq<string>, key: string, line: string): (r: seq<string>)
    ensures Mentions(config, key) ==>
      |r| == |config| && forall i :: 0 <= i < |r| ==> r[i] == if About(config[i], key) then line else config[i]
    ensures !Mentions(config, key) ==> r == config + [line]
  {
    if Mentions(config, key) then
      seq(|config|, i requires 0 <= i < |config| => if About(config[i], key) then line else config[i])
    else config + [line]
  }

  function ApplyOne(config: seq<string>, key: string, d: Directive): seq<string> {
    SetLine(config, key, LineFor(key, d))
  }

  /** Each key once, in the order list's order. */
  function ApplyAll(config: seq<string>, order: seq<string>, directives: map<string, Directive>): seq<string>
    requires forall k :: k in order ==> k in directives
  {
    if order == [] then config
    else
      var k := order[|order| - 1];
      ApplyOne(ApplyAll(config, order[..|order| - 1], directives), k, directives[k])
  }

  /** Every line of every fragment, one after another. */
  function ApplyStream(config: seq<string>, stream: seq<Setting>): seq<string> {
    if stream == [] then config
    else
      var (k, d) := stream[|stream| - 1];
      ApplyOne(ApplyStream(config, stream[..|stream| - 1]), k, d)
  }

  lemma ApplyMentions(config: seq<string>, key: string, d: Directive, j: string)
    requires IsKey(key) && IsKey(j)
    ensures Mentions(ApplyOne(config, key, d), j) <==> Mentions(config, j) || j == key
  {
    LineForIsAbout(key, d);
    var r := ApplyOne(config, key, d);
    if Mentions(config, key) {
      var i :| 0 <= i < |config| && About(config[i], key);
      assert About(r[i], key);
    } else {
      assert r[|config|] == LineFor(key, d);
    }
    if Mentions(config, j) && j != key {
      var i :| 0 <= i < |config| && About(config[i], j);
      if About(config[i], key) { AboutOne(config[i], j, key); }
      assert About(r[i], j);
    }
    if Mentions(r, j) && j != key {
      var i :| 0 <= i < |r| && About(r[i], j);
      if r[i] == LineFor(key, d) { AboutOne(r[i], j, key); }
      assert About(config[i], j);
    }
  }

  lemma SetTwice(config: seq<string>, key: string, d: Directive, e: Directive)
    requires IsKey(key)
    ensures ApplyOne(ApplyOne(config, key, d), key, e) == ApplyOne(config, key, e)
  {
    LineForIsAbout(key, d);
    ApplyMentions(config, key, d, key);
  }

  /** A line that is there already can be set before or after another key's. */
  lemma SetsCommute(config: seq<string>, k: string, d: Directive, j: string, e: Directive)
    requires IsKey(k) && IsKey(j) && k != j && Mentions(config, k)
    ensures ApplyOne(ApplyOne(config, k, d), j, e) == ApplyOne(ApplyOne(config, j, e), k, d)
  {
    LineForIsAbout(k, d);
    LineForIsAbout(j, e);
    ApplyMentions(config, k, d, j);
    ApplyMentions(config, j, e, k);
    var kj, jk := ApplyOne(ApplyOne(config, k, d), j, e), ApplyOne(ApplyOne(config, j, e), k, d);
    if About(LineFor(k, d), j) { AboutOne(LineFor(k, d), k, j); }
    if About(LineFor(j, e), k) { AboutOne(LineFor(j, e), k, j); }
    assert |kj| == |jk|;
    forall i | 0 <= i < |kj| ensures kj[i] == jk[i] {
      if i < |config| && About(config[i], k) && About(config[i], j) {
        AboutOne(config[i], k, j);
      }
    }
  }

  lemma {:induction false} ApplyAllMentions(config: seq<string>, order: seq<string>, directives: map<string, Directive>,
                                            k: string)
    requires forall j :: j in order ==> j in directives && IsKey(j)
    requires IsKey(k)
    ensures Mentions(ApplyAll(config, order, directives), k) <==> Mentions(config, k) || k in order
  {
    if order != [] {
      var before, j := order[..|order| - 1], order[|order| - 1];
      assert order == before + [j];
      ApplyAllMentions(config, before, directives, k);
      ApplyMentions(ApplyAll(config, before, directives), j, directives[j], k);
    }
  }

  lemma {:induction false} ApplyAllSame(config: seq<string>, order: seq<string>,
                                        a: map<string, Directive>, b: map<string, Directive>)
    requires forall k :: k in order ==> k in a && k in b && a[k] == b[k]
    ensures ApplyAll(config, order, a) == ApplyAll(config, order, b)
  {
    if order != [] {
      ApplyAllSame(config, order[..|order| - 1], a, b);
    }
  }

  /** Overwriting a key's directive before applying is overwriting its line afterwards. */
  lemma {:induction false} OverwriteLater(config: seq<string>, order: seq<string>, directives: map<string, Directive>,
                                          k: string, d: Directive)
    requires Distinct(order) && k in order && forall j :: j in order ==> j in directives && IsKey(j)
    ensures ApplyAll(config, order, directives[k := d]) == ApplyOne(ApplyAll(config, order, directives), k, d)
  {
    var before, last := order[..|order| - 1], order[|order| - 1];
    assert order == before + [last];
    if last == k {
      ApplyAllSame(config, before, directives, directives[k := d]);
      SetTwice(ApplyAll(config, before, directives), k, directives[k], d);
    } else {
      OverwriteLater(config, before, directives, k, d);
      ApplyAllMentions(config, before, directives, k);
      SetsCommute(ApplyAll(config, before, directives), k, d, last, directives[last]);
    }
  }

  /** Resolving first and applying each key once gives, line for line, the file that streaming every
      directive of every fragment through `scripts/config` gives. */
  lemma {:induction false} ResolvedIsStreamed(config: seq<string>, stream: seq<Setting>)
    requires WellFormed(stream)
    ensures forall k :: k in FirstSeen(stream) ==> k in LastWrite(stream)
    ensures ApplyAll(config, FirstSeen(stream), LastWrite(stream)) == ApplyStream(config, stream)
  {
    OrderIsDomain(stream);
    if stream != [] {
      var before, k, d := stream[..|stream| - 1], stream[|stream| - 1].0, stream[|stream| - 1].1;
      ResolvedIsStreamed(config, before);
      OrderIsDomain(before);
      KeysAreKeys(before);
      var order, directives := FirstSeen(before), LastWrite(before);
      if k in order {
        OverwriteLater(config, order, directives, k, d);
      } else {
        ApplyAllSame(config, order, directives, directives[k := d]);
        assert (order + [k])[..|order|] == order;
      }
    }
  }

  lemma KeysAreKeys(stream: seq<Setting>)
    requires WellFormed(stream)
    ensures forall k :: k in FirstSeen(stream) ==> IsKey(k)
  {
    OrderIsDomain(stream);
  }

  // ----- verification ------------------------------------------------------------------------

  function Matching(config: seq<string>, key: string): (r: seq<string>)
    ensures forall i :: 0 <= i < |r| ==> r[i] in config && About(r[i], key)
  {
    if config == [] then []
    else (if About(config[0], key) then [config[0]] else []) + Matching(config[1..], key)
  }

  /** One line of the file is about the key, and it is this one. */
  predicate Settled(config: seq<string>, key: string, line: string) {
    exists i :: 0 <= i < |config| && config[i] == line && About(line, key) &&
      forall j :: 0 <= j < |config| && About(config[j], key) ==> j == i
  }

  /** What a directive asks of the final file. Kconfig leaves out what a disabled parent hides, so a
      disabled option may also be absent. */
  predicate Holds(config: seq<string>, key: string, d: Directive) {
    Settled(config, key, LineFor(key, d)) || (d.Disable? && !Mentions(config, key))
  }

  lemma {:induction false} MatchingEmpty(config: seq<string>, key: string)
    ensures Matching(config, key) == [] <==> !Mentions(config, key)
  {
    if config != [] {
      MatchingEmpty(config[1..], key);
      if Mentions(config[1..], key) {
        var i :| 0 <= i < |config[1..]| && About(config[1..][i], key);
        assert About(config[i + 1], key);
      }
      if Mentions(config, key) && !About(config[0], key) {
        var i :| 0 <= i < |config| && About(config[i], key);
        assert config[1..][i - 1] == config[i];
      }
    }
  }

  lemma SettledCons(config: seq<string>, key: string, line: string)
    requires config != [] && About(line, key)
    ensures Settled(config, key, line) <==>
            if About(config[0], key) then config[0] == line && !Mentions(config[1..], key)
            else Settled(config[1..], key, line)
  {
    var rest := config[1..];
    assert forall i :: 0 <= i < |rest| ==> rest[i] == config[i + 1];
    if Settled(config, key, line) {
      var i :| 0 <= i < |config| && config[i] == line &&
        forall j :: 0 <= j < |config| && About(config[j], key) ==> j == i;
      assert i > 0 ==> rest[i - 1] == line;
    }
    if About(config[0], key) && config[0] == line && !Mentions(rest, key) {
      assert forall j :: 0 < j < |config| ==> config[j] == rest[j - 1];
      assert forall j :: 0 < j < |config| ==> !About(config[j], key);
    }
    if !About(config[0], key) && Settled(rest, key, line) {
      var i :| 0 <= i < |rest| && rest[i] == line &&
        forall j :: 0 <= j < |rest| && About(rest[j], key) ==> j == i;
      assert config[i + 1] == line;
      forall j | 0 <= j < |config| && About(config[j], key) ensures j == i + 1 {
        assert About(rest[j - 1], key);
      }
    }
  }

  lemma ConsIs(first: string, rest: seq<string>, line: string)
    ensures [first] + rest == [line] <==> first == line && rest == []
  {
    assert ([first] + rest)[0] == first && |[first] + rest| == 1 + |rest|;
  }

  lemma {:induction false} MatchingOne(config: seq<string>, key: string, line: string)
    requires About(line, key)
    ensures Matching(config, key) == [line] <==> Settled(config, key, line)
  {
    if config != [] {
      var rest := Matching(config[1..], key);
      SettledCons(config, key, line);
      MatchingOne(config[1..], key, line);
      MatchingEmpty(config[1..], key);
      assert Matching(config, key) == if About(config[0], key) then [config[0]] + rest else rest;
      ConsIs(config[0], rest, line);
    }
  }

  /** Comparing what `grep` printed, lines joined by newlines, with one expected line. */
  lemma PrintedIs(config: seq<string>, key: string, line: string)
    requires About(line, key) && '\n' !in line && forall i :: 0 <= i < |config| ==> '\n' !in config[i]
    ensures Join(Matching(config, key), '\n') == line <==> Settled(config, key, line)
    ensures Join(Matching(config, key), '\n') == "" <==> !Mentions(config, key)
  {
    var found := Matching(config, key);
    MatchingOne(config, key, line);
    MatchingEmpty(config, key);
    if found != [] {
      SplitJoin(found, '\n');
      SplitPlain(line, '\n');
      SplitPlain("", '\n');
      assert About(found[0], key);
    }
  }

  lemma LineForIsOneLine(key: string, d: Directive)
    requires IsKey(key) && OneLine(d)
    ensures '\n' !in LineFor(key, d)
  {
    AllKeyChars(key);
    assert '\n' !in key;
  }

  /** Every directive, whatever `olddefconfig` did to the file, or a failure: and it fails if and only
      if some key is unknown to this kernel or its directive does not hold. */
  method VerifyConfig(config: seq<string>, symbols: seq<string>, order: seq<string>, directives: map<string, Directive>)
      returns (ok: bool)
    requires forall k :: k in order ==> k in directives && IsKey(k) && OneLine(directives[k])
    requires forall i :: 0 <= i < |config| ==> '\n' !in config[i]
    ensures ok <==> forall k :: k in order ==> k in symbols && Holds(config, k, directives[k])
  {
    var failures := 0;
    var i := 0;
    while i < |order|
      invariant 0 <= i <= |order| && failures >= 0
      invariant failures == 0 <==> forall k :: k in order[..i] ==> k in symbols && Holds(config, k, directives[k])
    {
      var key, directive := order[i], directives[order[i]];
      assert order[..i + 1] == order[..i] + [key];
      var actual := Join(Matching(config, key), '\n');
      LineForIsAbout(key, directive);
      LineForIsOneLine(key, directive);
      PrintedIs(config, key, LineFor(key, directive));
      if key !in symbols {
        failures := failures + 1;
      } else {
        var holds :=
          match directive
          case Enable => actual == key + "=y"
          case Disable => actual == "" || actual == "# " + key + " is not set"
          case SetVal(value) => actual == key + "=" + value
          case SetStr(value) => actual == key + "=\"" + value + "\"";
        if !holds {
          failures := failures + 1;
        }
      }
      i := i + 1;
    }
    assert order[..|order|] == order;
    ok := failures == 0;
  }

  method ApplyDirectives(config: seq<string>, order: seq<string>, directives: map<string, Directive>)
      returns (r: seq<string>)
    requires forall k :: k in order ==> k in directives
    ensures r == ApplyAll(config, order, directives)
  {
    hide ApplyOne;
    r := config;
    assert order[..0] == [];
    var i := 0;
    while i < |order|
      invariant 0 <= i <= |order| && r == ApplyAll(config, order[..i], directives)
    {
      assert order[..i + 1][..i] == order[..i];
      r := ApplyOne(r, order[i], directives[order[i]]);
      i := i + 1;
    }
    assert order[..|order|] == order;
  }

  // ----- applying what was resolved makes it hold --------------------------------------------

  predicate AtMostOne(config: seq<string>, key: string) {
    forall i, j :: 0 <= i < |config| && 0 <= j < |config| && About(config[i], key) && About(config[j], key) ==> i == j
  }

  lemma AppliedHolds(config: seq<string>, key: string, d: Directive)
    requires IsKey(key) && AtMostOne(config, key)
    ensures Settled(ApplyOne(config, key, d), key, LineFor(key, d))
  {
    LineForIsAbout(key, d);
    var r := ApplyOne(config, key, d);
    if Mentions(config, key) {
      var i :| 0 <= i < |config| && About(config[i], key);
      assert r[i] == LineFor(key, d);
      forall j | 0 <= j < |r| && About(r[j], key) ensures j == i {
        assert About(config[j], key);
      }
    } else {
      assert r[|config|] == LineFor(key, d);
      assert forall j :: 0 <= j < |config| ==> !About(config[j], key) && r[j] == config[j];
    }
  }

  /** Setting another key moves no line and changes none about this one. */
  lemma ApplyElsewhere(config: seq<string>, k: string, d: Directive, j: string)
    requires IsKey(k) && IsKey(j) && k != j
    ensures AtMostOne(config, j) ==> AtMostOne(ApplyOne(config, k, d), j)
    ensures forall line :: Settled(config, j, line) ==> Settled(ApplyOne(config, k, d), j, line)
  {
    LineForIsAbout(k, d);
    var r := ApplyOne(config, k, d);
    forall i | 0 <= i < |r| && About(r[i], j) ensures i < |config| && About(config[i], j) && r[i] == config[i] {
      if r[i] == LineFor(k, d) { AboutOne(r[i], j, k); }
    }
    forall line | Settled(config, j, line) ensures Settled(r, j, line) {
      var i :| 0 <= i < |config| && config[i] == line && About(line, j) &&
        forall m :: 0 <= m < |config| && About(config[m], j) ==> m == i;
      if About(config[i], k) { AboutOne(config[i], j, k); }
      assert r[i] == line;
    }
  }

  /** On a file with no key set twice, applying the resolved directives makes every one of them hold:
      what verification asks for is met unless something undoes it. */
  lemma {:induction false} ApplyAllHolds(config: seq<string>, order: seq<string>, directives: map<string, Directive>)
    requires Distinct(order) && forall k :: k in order ==> k in directives && IsKey(k)
    requires forall k :: IsKey(k) ==> AtMostOne(config, k)
    ensures forall k :: k in order ==>
      Settled(ApplyAll(config, order, directives), k, LineFor(k, directives[k]))
      && Holds(ApplyAll(config, order, directives), k, directives[k])
    ensures forall k :: IsKey(k) ==> AtMostOne(ApplyAll(config, order, directives), k)
  {
    if order != [] {
      var before, last := order[..|order| - 1], order[|order| - 1];
      var partly, d := ApplyAll(config, before, directives), directives[last];
      assert order == before + [last];
      ApplyAllHolds(config, before, directives);
      AppliedHolds(partly, last, d);
      forall k | IsKey(k) ensures AtMostOne(ApplyOne(partly, last, d), k) {
        if k != last { ApplyElsewhere(partly, last, d, k); }
      }
      forall k | k in before ensures Settled(ApplyOne(partly, last, d), k, LineFor(k, directives[k])) {
        ApplyElsewhere(partly, last, d, k);
      }
    }
  }

  // ----- what the text of a fragment says ----------------------------------------------------

  /** Nothing but blanks, as they can stand within one line. */
  predicate Padding(s: string) {
    forall i :: 0 <= i < |s| ==> s[i] in " \t\r\U{000B}\U{000C}"
  }

  function Spelling(d: Directive): string {
    match d
    case Enable => "enable"
    case Disable => "disable"
    case SetStr(value) => "set-str:" + value
    case SetVal(value) => "set-val:" + value
  }

  /** The line asks for the directive: `KEY=directive` between blanks, a value not ending in one. */
  ghost predicate Says(line: string, key: string, d: Directive) {
    && IsKey(key)
    && (d.SetStr? || d.SetVal? ==> d.value == "" || !Padding(d.value[|d.value| - 1..]))
    && exists pre, post :: Padding(pre) && Padding(post) && line == pre + (key + "=" + Spelling(d)) + post
  }

  /** The line is blank or a comment. */
  ghost predicate Silent(line: string) {
    exists pre, rest :: Padding(pre) && (line == pre || line == pre + ("#" + rest))
  }

  /** A key is `CONFIG_` and at least one more of the characters a symbol's name is made of. */
  lemma KeysSpelled(s: string)
    ensures IsKey(s) <==> exists name :: name != "" && s == "CONFIG_" + name && SymbolName(name)
  {
    if IsKey(s) {
      assert s == "CONFIG_" + s[7..] && SymbolName(s[7..]);
    }
    if name :| name != "" && s == "CONFIG_" + name && SymbolName(name) {
      assert s[..7] == "CONFIG_";
      assert forall i :: 7 <= i < |s| ==> s[i] == name[i - 7];
    }
  }

  predicate SymbolName(name: string) {
    forall i :: 0 <= i < |name| ==> 'A' <= name[i] <= 'Z' || '0' <= name[i] <= '9' || name[i] == '_'
  }

  lemma Blanks(c: char)
    ensures IsSpace(c) && c != '\n' <==> Padding([c])
  {
    assert [c][0] == c;
  }

  lemma {:induction false} TrimsLeft(pre: string, core: string)
    requires Padding(pre) && (core == "" || !IsSpace(core[0]))
    ensures TrimLeft(pre + core) == core
  {
    if pre == "" {
      assert pre + core == core;
    } else {
      Blanks(pre[0]);
      assert (pre + core)[1..] == pre[1..] + core;
      TrimsLeft(pre[1..], core);
    }
  }

  lemma {:induction false} TrimsRight(core: string, post: string)
    requires Padding(post) && (core == "" || !IsSpace(core[|core| - 1]))
    ensures TrimRight(core + post) == core
    decreases |post|
  {
    if post == "" {
      assert core + post == core;
    } else {
      Blanks(post[|post| - 1]);
      assert (core + post)[..|core + post| - 1] == core + post[..|post| - 1];
      TrimsRight(core, post[..|post| - 1]);
    }
  }

  predicate Solid(core: string) {
    core != "" && !IsSpace(core[0]) && !IsSpace(core[|core| - 1])
  }

  lemma DropsOne(front: string, post: string) returns (rest: string)
    requires front != "" && front[|front| - 1] != '\r' && Padding(post)
    ensures DropCr(front + post) == front + rest && Padding(rest)
  {
    rest := post;
    if post == "" {
      assert front + post == front;
    } else if post[|post| - 1] == '\r' {
      rest := post[..|post| - 1];
      assert (front + post)[..|front + post| - 1] == front + rest;
    } else {
      assert (front + post)[|front + post| - 1] == post[|post| - 1];
    }
  }

  lemma StripsPadding(pre: string, core: string, post: string)
    requires Padding(pre) && Padding(post) && Solid(core)
    ensures Strip(pre + core + post) == core
  {
    assert core[|core| - 1] != '\r' && (pre + core)[|pre + core| - 1] == core[|core| - 1];
    assert (core + "")[0] == core[0];
    hide Padding, TrimLeft, TrimRight, DropCr, IsSpace;
    var rest := DropsOne(pre + core, post);
    assert pre + core + rest == pre + (core + rest);
    TrimsLeft(pre, core + rest);
    TrimsRight(core, rest);
  }

  lemma StripsBlank(raw: string)
    requires Padding(raw)
    ensures Strip(raw) == ""
  {
    var rest := DropCr(raw);
    assert rest + "" == rest;
    TrimsLeft(rest, "");
  }

  lemma {:induction false} LeftIsPadding(s: string)
    requires '\n' !in s
    ensures Padding(s[..|s| - |TrimLeft(s)|]) && (TrimLeft(s) == "" || !IsSpace(TrimLeft(s)[0]))
  {
    if s != "" && IsSpace(s[0]) {
      hide Padding, IsSpace;
      Blanks(s[0]);
      LeftIsPadding(s[1..]);
      var n := |s| - |TrimLeft(s)|;
      assert s[..n] == [s[0]] + s[1..][..n - 1];
      PaddingJoins([s[0]], s[1..][..n - 1]);
    }
  }

  lemma {:induction false} RightIsPadding(s: string)
    requires '\n' !in s
    ensures Padding(s[|TrimRight(s)|..])
    ensures TrimRight(s) == "" || !IsSpace(TrimRight(s)[|TrimRight(s)| - 1])
  {
    if s != "" && IsSpace(s[|s| - 1]) {
      hide Padding, IsSpace;
      var last := s[|s| - 1];
      Blanks(last);
      RightIsPadding(s[..|s| - 1]);
      var n := |TrimRight(s)|;
      assert s[n..] == s[..|s| - 1][n..] + [last];
      PaddingJoins(s[..|s| - 1][n..], [last]);
    }
  }

  lemma PaddingJoins(a: string, b: string)
    ensures Padding(a + b) <==> Padding(a) && Padding(b)
  {
    assert forall i :: 0 <= i < |a| ==> (a + b)[i] == a[i];
    assert forall i :: 0 <= i < |b| ==> (a + b)[|a| + i] == b[i];
  }

  lemma DropsPadding(raw: string)
    ensures raw == DropCr(raw) + raw[|DropCr(raw)|..] && Padding(raw[|DropCr(raw)|..])
  {
  }

  lemma CutTwice(s: string, n: nat, m: nat)
    requires n <= |s| && m <= |s| - n
    ensures s == s[..n] + s[n..][..m] + s[n..][m..]
  {
  }

  lemma TrimsPadding(s: string) returns (pre: string, post: string)
    requires '\n' !in s
    ensures Padding(pre) && Padding(post) && s == pre + TrimRight(TrimLeft(s)) + post
    ensures TrimRight(TrimLeft(s)) == "" || Solid(TrimRight(TrimLeft(s)))
  {
    hide Padding, IsSpace, TrimLeft, TrimRight;
    var n, left := |s| - |TrimLeft(s)|, TrimLeft(s);
    var m, core := |TrimRight(left)|, TrimRight(left);
    LeftIsPadding(s);
    RightIsPadding(left);
    pre, post := s[..n], left[m..];
    CutTwice(s, n, m);
    if core != "" {
      assert core[0] == left[0];
    }
  }

  lemma StripLeaves(raw: string) returns (pre: string, post: string)
    requires '\n' !in raw
    ensures Padding(pre) && Padding(post) && raw == pre + Strip(raw) + post
    ensures Strip(raw) == "" || Solid(Strip(raw))
  {
    DropsPadding(raw);
    hide Padding, IsSpace, TrimLeft, TrimRight, Solid;
    var whole, tail := DropCr(raw), raw[|DropCr(raw)|..];
    var before, after := TrimsPadding(whole);
    PaddingJoins(after, tail);
    pre, post := before, after + tail;
    assert before + Strip(raw) + after + tail == pre + Strip(raw) + post;
  }

  lemma Spelled(text: string, d: Directive)
    ensures ParseDirective(text) == Some(d) <==> text == Spelling(d)
  {
    match d
    case Enable =>
    case Disable =>
    case SetStr(value) =>
      assert ("set-str:" + value)[8..] == value;
      assert "set-str:" <= text ==> text == "set-str:" + text[8..];
      assert text == Spelling(d) ==> text[0] == 's' && text[4] == 's';
    case SetVal(value) =>
      assert ("set-val:" + value)[8..] == value;
      assert "set-val:" <= text ==> text == "set-val:" + text[8..];
      assert text == Spelling(d) ==> text[0] == 's' && text[4] == 'v';
  }

  lemma KeyHasNoEquals(key: string)
    requires IsKey(key)
    ensures '=' !in key && key[0] == 'C' && !IsSpace(key[0])
  {
    AllKeyChars(key);
    assert key[..7][0] == 'C';
  }

  lemma SpellingEndsSolid(d: Directive)
    requires d.SetStr? || d.SetVal? ==> d.value == "" || !Padding(d.value[|d.value| - 1..])
    requires (d.SetStr? || d.SetVal?) ==> '\n' !in d.value
    ensures Spelling(d) != "" && !IsSpace(Spelling(d)[|Spelling(d)| - 1])
  {
    if (d.SetStr? || d.SetVal?) && d.value != "" {
      var last := d.value[|d.value| - 1];
      Blanks(last);
      assert d.value[|d.value| - 1..] == [last];
    }
  }

  /** A line is read as a setting exactly if it asks for it. */
  lemma LineSays(line: string, key: string, d: Directive)
    requires '\n' !in line
    ensures ParseLine(line) == Ok(Some((key, d))) <==> Says(line, key, d)
  {
    if Says(line, key, d) {
      SaidIsRead(line, key, d);
    }
    if ParseLine(line) == Ok(Some((key, d))) {
      ReadIsSaid(line, key, d);
    }
  }

  lemma CoreIsSolid(key: string, d: Directive, core: string)
    requires IsKey(key) && core == key + ['='] + Spelling(d) && '\n' !in core
    requires d.SetStr? || d.SetVal? ==> d.value == "" || !Padding(d.value[|d.value| - 1..])
    ensures Solid(core)
  {
    ValueInLine(d, core, key);
    SpellingEndsSolid(d);
    KeyHasNoEquals(key);
    hide IsKey, Spelling, Padding, IsSpace;
    assert core[0] == key[0] && core[|core| - 1] == Spelling(d)[|Spelling(d)| - 1];
  }

  lemma StrippedParses(line: string, key: string, text: string, d: Directive)
    requires Strip(line) == key + ['='] + text && IsKey(key) && ParseDirective(text) == Some(d)
    ensures ParseLine(line) == Ok(Some((key, d)))
  {
    KeyHasNoEquals(key);
    hide Strip, IsKey, ParseDirective;
    SplitOnceAt(key, '=', text);
    assert Strip(line)[0] == key[0];
  }

  lemma SaidIsRead(line: string, key: string, d: Directive)
    requires '\n' !in line && Says(line, key, d)
    ensures ParseLine(line) == Ok(Some((key, d)))
  {
    hide IsKey, ParseDirective, Spelling, Padding, IsSpace, Strip, Solid, ParseLine;
    var pre, post :| Padding(pre) && Padding(post) && line == pre + (key + "=" + Spelling(d)) + post;
    var core := key + ['='] + Spelling(d);
    assert key + "=" + Spelling(d) == core;
    InLine(pre, core, post);
    CoreIsSolid(key, d, core);
    StripsPadding(pre, core, post);
    Spelled(Spelling(d), d);
    StrippedParses(line, key, Spelling(d), d);
  }

  lemma InLine(pre: string, core: string, post: string)
    requires '\n' !in pre + core + post
    ensures '\n' !in core
  {
  }

  lemma ValueInLine(d: Directive, core: string, key: string)
    requires core == key + ['='] + Spelling(d) && '\n' !in core
    ensures (d.SetStr? || d.SetVal?) ==> '\n' !in d.value
  {
    if d.SetStr? || d.SetVal? {
      assert forall i :: 0 <= i < |d.value| ==> core[|key| + 9 + i] == d.value[i];
    }
  }

  lemma ReadIsSaid(line: string, key: string, d: Directive)
    requires '\n' !in line && ParseLine(line) == Ok(Some((key, d)))
    ensures Says(line, key, d)
  {
    hide IsKey, ParseDirective, IsSpace, Strip, Padding;
    var pre, post := StripLeaves(line);
    var core := Strip(line);
    var (k, text) := SplitOnce(core, '=').value;
    assert k == key && core == key + ['='] + text;
    Spelled(text, d);
    assert core == key + "=" + Spelling(d);
    assert '\n' !in core;
    if (d.SetStr? || d.SetVal?) && d.value != "" {
      var last := d.value[|d.value| - 1];
      assert core[|core| - 1] == last;
      assert last in line;
      Blanks(last);
      assert d.value[|d.value| - 1..] == [last];
    }
  }

  /** A line is passed over exactly if it is blank or a comment. */
  lemma LineSilent(line: string)
    requires '\n' !in line
    ensures ParseLine(line) == Ok(None) <==> Silent(line)
  {
    hide IsKey, ParseDirective, Strip, Padding, Silent;
    if Silent(line) {
      SilentStrips(line);
    }
    if Strip(line) == "" || Strip(line)[0] == '#' {
      StrippedIsSilent(line);
    }
  }

  lemma StrippedIsSilent(line: string)
    requires '\n' !in line && (Strip(line) == "" || Strip(line)[0] == '#')
    ensures Silent(line)
  {
    hide Strip, Padding;
    var pre, post := StripLeaves(line);
    var core := Strip(line);
    if core == "" {
      PaddingJoins(pre, post);
      assert line == pre + post;
      assert line == (pre + post) + ("#" + "") || line == pre + post;
    } else {
      assert core == "#" + core[1..];
      assert line == pre + ("#" + (core[1..] + post));
    }
  }

  lemma SilentStrips(line: string)
    requires Silent(line)
    ensures Strip(line) == "" || Strip(line)[0] == '#'
  {
    hide Strip, Padding;
    var pre, rest :| Padding(pre) && (line == pre || line == pre + ("#" + rest));
    if line == pre {
      StripsBlank(line);
    } else {
      CommentStrips(pre, rest);
    }
  }

  lemma CommentStrips(pre: string, rest: string)
    requires Padding(pre)
    ensures var core := Strip(pre + ("#" + rest)); core != "" && core[0] == '#'
  {
    var raw := pre + ("#" + rest);
    var left := DropCr(raw)[|pre|..];
    assert DropCr(raw) == pre + left && left[0] == '#';
    TrimsLeft(pre, left);
    KeepsFirst(left);
  }

  lemma {:induction false} KeepsFirst(s: string)
    requires s != "" && !IsSpace(s[0])
    ensures TrimRight(s) != "" && TrimRight(s)[0] == s[0]
  {
    if IsSpace(s[|s| - 1]) {
      KeepsFirst(s[..|s| - 1]);
    }
  }

  predicate LinesOnly(lines: seq<string>) {
    forall i :: 0 <= i < |lines| ==> '\n' !in lines[i]
  }

  lemma {:induction false} FragmentLines(fragments: seq<string>)
    ensures LinesOnly(LinesOf(fragments))
  {
    if fragments != [] {
      FragmentLines(fragments[1..]);
    }
  }

  /** Of some lines, this one asks for the directive and none after it is about the key. */
  ghost predicate LastSays(lines: seq<string>, i: nat, key: string, d: Directive) {
    && i < |lines| && Says(lines[i], key, d)
    && forall j, e :: i < j < |lines| ==> !Says(lines[j], key, e)
  }

  /** Every line is a setting, blank or a comment. */
  ghost predicate Readable(lines: seq<string>) {
    forall i :: 0 <= i < |lines| ==> Silent(lines[i]) || exists key, d :: Says(lines[i], key, d)
  }

  lemma {:induction false} SettingsRead(lines: seq<string>)
    requires LinesOnly(lines)
    ensures SettingsOf(lines).Ok? <==> Readable(lines)
    ensures SettingsOf(lines).Ok? ==>
      forall k, e :: (k, e) in SettingsOf(lines).value ==> exists j :: 0 <= j < |lines| && Says(lines[j], k, e)
  {
    hide ParseLine, Says, Silent;
    if lines != [] {
      SettingsRead(lines[1..]);
      LineRead(lines[0]);
      assert forall i :: 0 <= i < |lines| - 1 ==> lines[1..][i] == lines[i + 1];
      assert Readable(lines) <==> (Silent(lines[0]) || exists key, d :: Says(lines[0], key, d)) && Readable(lines[1..]) by {
        assert forall i :: 0 < i < |lines| ==> lines[i] == lines[1..][i - 1];
      }
      if SettingsOf(lines).Ok? {
        forall k, e | (k, e) in SettingsOf(lines).value
          ensures exists j :: 0 <= j < |lines| && Says(lines[j], k, e)
        {
          if (k, e) in SettingsOf(lines[1..]).value {
            var j :| 0 <= j < |lines[1..]| && Says(lines[1..][j], k, e);
            assert Says(lines[j + 1], k, e);
          }
        }
      }
    }
  }

  lemma LineRead(line: string)
    requires '\n' !in line
    ensures ParseLine(line).Ok? <==> Silent(line) || exists key, d :: Says(line, key, d)
    ensures forall key, d :: ParseLine(line) == Ok(Some((key, d))) <==> Says(line, key, d)
  {
    hide ParseLine, Says, Silent;
    LineSilent(line);
    forall key, d
      ensures ParseLine(line) == Ok(Some((key, d))) <==> Says(line, key, d)
    {
      LineSays(line, key, d);
    }
    if ParseLine(line).Ok? && ParseLine(line).value.Some? {
      var (key, d) := ParseLine(line).value.value;
      assert Says(line, key, d);
    }
  }

  /** The last line about a key is what its entry in the resolved map says. */
  lemma LastLineWins(lines: seq<string>, i: nat, key: string, d: Directive)
    requires LinesOnly(lines) && SettingsOf(lines).Ok? && LastSays(lines, i, key, d)
    ensures var resolved := LastWrite(SettingsOf(lines).value); key in resolved && resolved[key] == d
  {
    hide ParseLine, Says, LastWrite;
    var before, after := lines[..i], lines[i + 1..];
    assert lines == before + ([lines[i]] + after);
    SettingsConcat(before, [lines[i]] + after);
    SettingsConcat([lines[i]], after);
    LineSays(lines[i], key, d);
    OneLineSays(lines[i], key, d);
    var first, rest := SettingsOf(before).value, SettingsOf(after).value;
    assert SettingsOf(lines).value == first + ([(key, d)] + rest);
    LastWriteMerges(first, [(key, d)] + rest);
    LastWriteMerges([(key, d)], rest);
    OneWrite(key, d);
    KeySaid(after, key);
    assert forall j :: 0 <= j < |after| ==> after[j] == lines[i + 1 + j];
  }

  lemma KeySaid(lines: seq<string>, key: string)
    requires LinesOnly(lines) && SettingsOf(lines).Ok?
    ensures key in LastWrite(SettingsOf(lines).value) ==> exists j, e :: 0 <= j < |lines| && Says(lines[j], key, e)
  {
    hide Says, LastWrite, SettingsOf;
    var stream := SettingsOf(lines).value;
    SettingsRead(lines);
    if key in LastWrite(stream) {
      Written(stream, key);
      var n :| 0 <= n < |stream| && stream[n].0 == key;
      assert (key, stream[n].1) in stream;
    }
  }

  lemma OneLineSays(line: string, key: string, d: Directive)
    requires ParseLine(line) == Ok(Some((key, d)))
    ensures SettingsOf([line]) == Ok([(key, d)])
  {
    hide ParseLine;
    assert [line][1..] == [];
    assert SettingsOf([]) == Ok([]);
    assert [(key, d)] + [] == [(key, d)];
  }

  lemma OneWrite(key: string, d: Directive)
    ensures LastWrite([(key, d)]) == map[key := d]
  {
    assert [(key, d)][..0] == [];
  }

  lemma Written(stream: seq<Setting>, key: string)
    requires key in LastWrite(stream)
    ensures exists n :: 0 <= n < |stream| && stream[n].0 == key
  {
    OrderIsDomain(stream);
  }

  /** From the text of the fragments to the lines of the file: if every line can be read, the last line
      about a key decides, and on a file with no key set twice its one line about the key is then the
      one that `scripts/config` writes for it. */
  method Configure(config: seq<string>, fragments: seq<string>) returns (r: Result<seq<string>, ParseError>)
    requires forall k :: IsKey(k) ==> AtMostOne(config, k)
    ensures r.Ok? <==> Readable(LinesOf(fragments))
    ensures r.Ok? ==> forall i, key :: LastSays(LinesOf(fragments), i, key, Enable) ==>
      Settled(r.value, key, key + "=y")
    ensures r.Ok? ==> forall i, key :: LastSays(LinesOf(fragments), i, key, Disable) ==>
      Settled(r.value, key, "# " + key + " is not set")
    ensures r.Ok? ==> forall i, key, v :: LastSays(LinesOf(fragments), i, key, SetStr(v)) ==>
      Settled(r.value, key, key + "=\"" + v + "\"")
    ensures r.Ok? ==> forall i, key, v :: LastSays(LinesOf(fragments), i, key, SetVal(v)) ==>
      Settled(r.value, key, key + "=" + v)
  {
    hide IsKey, AtMostOne, LastSays, Readable, SettingsOf, LinesOf, LastWrite, FirstSeen, Settled, Holds, Distinct, OneLine;
    var resolved, directives, order := Resolve(fragments);
    ghost var lines := LinesOf(fragments);
    FragmentLines(fragments);
    SettingsRead(lines);
    if resolved.Err? {
      return Err(resolved.error);
    }
    ghost var stream := SettingsOf(lines).value;
    OrderIsDomain(stream);
    KeysAreKeys(stream);
    var applied := ApplyDirectives(config, order, directives);
    ApplyAllHolds(config, order, directives);
    forall i, key, d | LastSays(lines, i, key, d)
      ensures Settled(applied, key, LineFor(key, d))
    {
      LastLineWins(lines, i, key, d);
    }
    r := Ok(applied);
  }

  // ----- which fragments, and which of them wins ---------------------------------------------

  datatype Fragment =
    | Base | Profile | NetCommon | NetIpv4 | NetIpv6 | NetNone
    | Category(index: nat) | Fips | StoragePersistent | StorageRam | FirewallRules | FirewallInet | Extra

  datatype Selection = Selection(
    ipv4: bool, ipv6: bool, categories: seq<bool>, fips: bool, persistent: bool, firewall: bool, extra: bool)

  function Chosen(on: bool, f: Fragment): seq<Fragment> {
    if on then [f] else []
  }

  function Categories(on: seq<bool>): (r: seq<Fragment>)
    ensures forall i :: 0 <= i < |r| ==> r[i].Category?
  {
    if on == [] then [] else Categories(on[..|on| - 1]) + Chosen(on[|on| - 1], Category(|on| - 1))
  }

  /** Everything up to the firewall's own fragments. */
  function BeforeFirewall(sel: Selection): seq<Fragment> {
    [Base, Profile]
    + Chosen(sel.ipv4 || sel.ipv6, NetCommon) + Chosen(sel.ipv4, NetIpv4) + Chosen(sel.ipv6, NetIpv6)
    + Chosen(!sel.ipv4 && !sel.ipv6, NetNone)
    + Categories(sel.categories) + Chosen(sel.fips, Fips)
    + [if sel.persistent then StoragePersistent else StorageRam]
  }

  function Fragments(sel: Selection): seq<Fragment> {
    BeforeFirewall(sel)
    + Chosen(sel.firewall, FirewallRules) + Chosen(sel.firewall && sel.ipv6, FirewallInet)
    + Chosen(sel.extra, Extra)
  }

  /** Which fragments go into a build: the two fixed ones and, each by its own switch, the others. */
  lemma FragmentsChosen(sel: Selection, f: Fragment)
    ensures f in Fragments(sel) <==>
      match f
      case Base => true
      case Profile => true
      case NetCommon => sel.ipv4 || sel.ipv6
      case NetIpv4 => sel.ipv4
      case NetIpv6 => sel.ipv6
      case NetNone => !sel.ipv4 && !sel.ipv6
      case Category(i) => i < |sel.categories| && sel.categories[i]
      case Fips => sel.fips
      case StoragePersistent => sel.persistent
      case StorageRam => !sel.persistent
      case FirewallRules => sel.firewall
      case FirewallInet => sel.firewall && sel.ipv6
      case Extra => sel.extra
  {
    CategoriesChosen(sel.categories, f);
    hide Categories;
  }

  lemma {:induction false} CategoriesChosen(on: seq<bool>, f: Fragment)
    ensures f in Categories(on) <==> f.Category? && f.index < |on| && on[f.index]
  {
    if on != [] {
      CategoriesChosen(on[..|on| - 1], f);
    }
  }

  function StreamOf(fragments: seq<Fragment>, settings: Fragment -> seq<Setting>): seq<Setting> {
    if fragments == [] then []
    else StreamOf(fragments[..|fragments| - 1], settings) + settings(fragments[|fragments| - 1])
  }

  lemma {:induction false} LastWriteMerges(a: seq<Setting>, b: seq<Setting>)
    ensures LastWrite(a + b) == LastWrite(a) + LastWrite(b)
  {
    if b == [] {
      assert a + b == a;
    } else {
      var before := b[..|b| - 1];
      assert (a + b)[..|a + b| - 1] == a + before;
      LastWriteMerges(a, before);
    }
  }

  lemma {:induction false} StreamMerges(a: seq<Fragment>, b: seq<Fragment>, settings: Fragment -> seq<Setting>)
    ensures LastWrite(StreamOf(a + b, settings)) == LastWrite(StreamOf(a, settings)) + LastWrite(StreamOf(b, settings))
  {
    if b == [] {
      assert a + b == a;
    } else {
      var before, last := b[..|b| - 1], settings(b[|b| - 1]);
      assert (a + b)[..|a + b| - 1] == a + before;
      StreamMerges(a, before, settings);
      LastWriteMerges(StreamOf(a + before, settings), last);
      LastWriteMerges(StreamOf(before, settings), last);
    }
  }

  /** With the firewall on, what its fragment says is what gets built, whatever the category
      fragments (which turn netfilter off wholesale) and all others before it say; only its own
      IPv6 companion and the user's extra file can override it. */
  lemma FirewallFragmentWins(sel: Selection, settings: Fragment -> seq<Setting>, k: string)
    requires sel.firewall && k in LastWrite(settings(FirewallRules))
    requires sel.ipv6 ==> k !in LastWrite(settings(FirewallInet))
    requires sel.extra ==> k !in LastWrite(settings(Extra))
    ensures k in LastWrite(StreamOf(Fragments(sel), settings))
    ensures LastWrite(StreamOf(Fragments(sel), settings))[k] == LastWrite(settings(FirewallRules))[k]
  {
    var before, inet, extra := BeforeFirewall(sel), Chosen(sel.ipv6, FirewallInet), Chosen(sel.extra, Extra);
    assert Fragments(sel) == before + ([FirewallRules] + (inet + extra));
    StreamMerges(before, [FirewallRules] + (inet + extra), settings);
    StreamMerges([FirewallRules], inet + extra, settings);
    StreamMerges(inet, extra, settings);
    SingleStream(FirewallRules, settings);
    SingleStream(FirewallInet, settings);
    SingleStream(Extra, settings);
  }

  /** The user's own fragment comes last: what it says is what gets built. */
  lemma ExtraFragmentWins(sel: Selection, settings: Fragment -> seq<Setting>, k: string)
    requires sel.extra && k in LastWrite(settings(Extra))
    ensures k in LastWrite(StreamOf(Fragments(sel), settings))
    ensures LastWrite(StreamOf(Fragments(sel), settings))[k] == LastWrite(settings(Extra))[k]
  {
    var before := Fragments(sel)[..|Fragments(sel)| - 1];
    assert Fragments(sel) == before + [Extra];
    StreamMerges(before, [Extra], settings);
    SingleStream(Extra, settings);
  }

  lemma SingleStream(f: Fragment, settings: Fragment -> seq<Setting>)
    ensures StreamOf([f], settings) == settings(f)
  {
    assert [f][..0] == [];
  }
}
