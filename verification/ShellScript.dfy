/** Values in generated shell scripts: the quoting the host applies, and an independent reading of
    it, the part of POSIX shell word evaluation (section 2.2 of the Shell Command Language) that a
    script of `export NAME=word` lines can exercise. */
module ShellScript {
  import opened Text
  import opened Wrappers

  datatype ShellError = Unterminated | Expansion(c: char) | NotAnExport | BadName(name: string)

  // ----- the host ----------------------------------------------------------------------------

  /** Every single quote becomes: close the quotes, an escaped quote, open them again. */
  function Escaped(s: string): string {
    if s == "" then ""
    else (if s[0] == '\'' then "'\\''" else [s[0]]) + Escaped(s[1..])
  }

  function ShellQuote(s: string): string {
    "'" + Escaped(s) + "'"
  }

  function ExportLine(name: string, value: string): string {
    "export " + name + "=" + ShellQuote(value) + "\n"
  }

  type Export = (string, string)

  function Script(exports: seq<Export>): string {
    if exports == [] then ""
    else ExportLine(exports[0].0, exports[0].1) + Script(exports[1..])
  }

  // ----- the shell ---------------------------------------------------------------------------

  /** Characters that end an unquoted word. */
  predicate Ends(c: char) {
    c in " \t\n;&|<>()"
  }

  /** Characters that make an unquoted word something other than its text. */
  predicate Active(c: char) {
    c in "$`\"*?[~#{}!"
  }

  /** The rest of a word outside quotes: its value so far is `value`; the result is the whole value
      and the text after the word. A NUL is dropped, as shells do. */
  function Unquoted(s: string, value: string): (r: Result<(string, string), ShellError>)
    ensures r.Ok? ==> |r.value.1| <= |s|
    decreases |s|
  {
    if s == "" then Ok((value, ""))
    else if s[0] == '\'' then Quoted(s[1..], value)
    else if s[0] == '\\' then
      if |s| == 1 then Ok((value + "\\", ""))
      else Unquoted(s[2..], if s[1] == '\n' then value else value + [s[1]])
    else if Ends(s[0]) then Ok((value, s))
    else if Active(s[0]) then Err(Expansion(s[0]))
    else Unquoted(s[1..], if s[0] == '\0' then value else value + [s[0]])
  }

  /** The same between single quotes, where every character stands for itself. */
  function Quoted(s: string, value: string): (r: Result<(string, string), ShellError>)
    ensures r.Ok? ==> |r.value.1| <= |s|
    decreases |s|
  {
    if s == "" then Err(Unterminated)
    else if s[0] == '\'' then Unquoted(s[1..], value)
    else Quoted(s[1..], if s[0] == '\0' then value else value + [s[0]])
  }

  predicate NameStart(c: char) {
    'A' <= c <= 'Z' || 'a' <= c <= 'z' || c == '_'
  }

  predicate IsName(s: string) {
    s != "" && NameStart(s[0]) && forall i :: 0 <= i < |s| ==> NameStart(s[i]) || '0' <= s[i] <= '9'
  }

  /** One command of the script: the variable, its value, and the commands after it. */
  function ReadExport(s: string): (r: Result<(string, string, string), ShellError>)
    ensures r.Ok? ==> |r.value.2| < |s|
  {
    if !("export " <= s) then Err(NotAnExport)
    else
      match SplitOnce(s[7..], '=')
      case None => Err(NotAnExport)
      case Some((name, text)) =>
        if !IsName(name) then Err(BadName(name))
        else
          match Unquoted(text, "")
          case Err(e) => Err(e)
          case Ok((value, rest)) =>
            if rest == "" || rest[0] != '\n' then Err(NotAnExport) else Ok((name, value, rest[1..]))
  }

  function RunScript(s: string, env: map<string, string>): Result<map<string, string>, ShellError>
    decreases |s|
  {
    if s == "" then Ok(env)
    else
      match ReadExport(s)
      case Err(e) => Err(e)
      case Ok((name, value, rest)) => RunScript(rest, env[name := value])
  }

  // ----- what the shell makes of what the host writes ----------------------------------------

  function DropNul(s: string): string {
    if s == "" then "" else (if s[0] == '\0' then "" else [s[0]]) + DropNul(s[1..])
  }

  lemma {:induction false} DropNulPlain(s: string)
    ensures DropNul(s) == s <==> '\0' !in s
    ensures |DropNul(s)| <= |s|
  {
    if s != "" {
      DropNulPlain(s[1..]);
      assert s == [s[0]] + s[1..];
      if s[0] == '\0' {
        assert DropNul(s) == DropNul(s[1..]);
      } else {
        assert (([s[0]] + DropNul(s[1..]))[1..]) == DropNul(s[1..]);
      }
    }
  }

  lemma OpenQuote(rest: string, value: string)
    ensures Unquoted("'" + rest, value) == Quoted(rest, value)
  {
    assert ("'" + rest)[1..] == rest;
  }

  lemma CloseQuote(rest: string, value: string)
    ensures Quoted("'" + rest, value) == Unquoted(rest, value)
  {
    assert ("'" + rest)[1..] == rest;
  }

  lemma StopsAtEnd(rest: string, value: string)
    requires rest == "" || Ends(rest[0])
    ensures Unquoted(rest, value) == Ok((value, rest))
  {
  }

  /** The four characters written for a quote inside quotes read back as one quote. */
  lemma EscapedQuote(rest: string, value: string)
    ensures Quoted("'\\''" + rest, value) == Quoted(rest, value + "'")
  {
    var s, t := "'\\''" + rest, "\\''" + rest;
    assert s[1..] == t && s[0] == '\'';
    assert t[2..] == "'" + rest && t[0] == '\\' && t[1] == '\'';
    assert value + [t[1]] == value + "'";
    OpenQuote(rest, value + "'");
  }

  lemma PlainChar(c: char, rest: string, value: string)
    requires c != '\''
    ensures Quoted([c] + rest, value) == Quoted(rest, if c == '\0' then value else value + [c])
  {
    assert ([c] + rest)[1..] == rest;
  }

  lemma {:induction false} QuotedReads(s: string, rest: string, value: string)
    ensures Quoted(Escaped(s) + "'" + rest, value) == Unquoted(rest, value + DropNul(s))
  {
    hide Unquoted, Quoted;
    if s == "" {
      assert Escaped(s) + "'" + rest == "'" + rest;
      assert value + DropNul(s) == value;
      CloseQuote(rest, value);
    } else {
      var tail := Escaped(s[1..]) + "'" + rest;
      var first := if s[0] == '\'' then "'\\''" else [s[0]];
      assert Escaped(s) + "'" + rest == first + tail;
      var more := if s[0] == '\0' then value else value + [s[0]];
      if s[0] == '\'' {
        EscapedQuote(tail, value);
      } else {
        PlainChar(s[0], tail, value);
      }
      QuotedReads(s[1..], rest, more);
      assert more + DropNul(s[1..]) == value + DropNul(s);
    }
  }

  /** A quoted string is read as one word whose value is the string, and the shell goes on exactly
      where the quoting ended, whatever the string contains and whatever follows. */
  lemma QuotingIsExact(s: string, rest: string)
    requires rest == "" || Ends(rest[0])
    ensures Unquoted(ShellQuote(s) + rest, "") == Ok((DropNul(s), rest))
  {
    hide Unquoted, Quoted;
    assert ShellQuote(s) + rest == "'" + (Escaped(s) + "'" + rest);
    OpenQuote(Escaped(s) + "'" + rest, "");
    QuotedReads(s, rest, "");
    assert "" + DropNul(s) == DropNul(s);
    StopsAtEnd(rest, DropNul(s));
  }

  /** Word evaluation undoes quoting exactly on the strings a shell can hold. */
  lemma QuoteRoundTrip(s: string)
    ensures Unquoted(ShellQuote(s), "") == Ok((s, "")) <==> '\0' !in s
  {
    assert ShellQuote(s) + "" == ShellQuote(s);
    QuotingIsExact(s, "");
    DropNulPlain(s);
  }

  lemma ReadsExport(name: string, value: string, rest: string)
    requires IsName(name)
    ensures ReadExport(ExportLine(name, value) + rest) == Ok((name, DropNul(value), rest))
  {
    hide Unquoted, ShellQuote;
    var s := ExportLine(name, value) + rest;
    var word := ShellQuote(value) + ("\n" + rest);
    assert s == "export " + (name + ['='] + word);
    assert s[7..] == name + ['='] + word;
    assert '=' !in name;
    SplitOnceAt(name, '=', word);
    QuotingIsExact(value, "\n" + rest);
    assert ("\n" + rest)[1..] == rest;
  }

  function Setting(exports: seq<Export>, env: map<string, string>): map<string, string> {
    if exports == [] then env else Setting(exports[1..], env[exports[0].0 := DropNul(exports[0].1)])
  }

  predicate AllNamed(exports: seq<Export>) {
    forall i :: 0 <= i < |exports| ==> IsName(exports[i].0)
  }

  /** Running the script sets each variable to its value, less the NULs no shell can hold, whatever the
      values are, and leaves the commands after it alone: no value can end its own line or start
      another command. */
  lemma {:induction false} ScriptSets(exports: seq<Export>, rest: string, env: map<string, string>)
    requires AllNamed(exports)
    ensures RunScript(Script(exports) + rest, env) == RunScript(rest, Setting(exports, env))
  {
    hide ReadExport, ExportLine;
    if exports == [] {
      assert Script(exports) + rest == rest;
    } else {
      var (name, value) := exports[0];
      var tail := Script(exports[1..]) + rest;
      assert Script(exports) + rest == ExportLine(name, value) + tail;
      ReadsExport(name, value, tail);
      NotEmpty(name, value, tail);
      ScriptSets(exports[1..], rest, env[name := DropNul(value)]);
    }
  }

  lemma NotEmpty(name: string, value: string, tail: string)
    ensures ExportLine(name, value) + tail != ""
  {
    assert |ExportLine(name, value)| > 0;
  }

  lemma ScriptRuns(exports: seq<Export>)
    requires AllNamed(exports)
    ensures RunScript(Script(exports), map[]) == Ok(Setting(exports, map[]))
  {
    assert Script(exports) + "" == Script(exports);
    ScriptSets(exports, "", map[]);
  }

  // ----- writing one -------------------------------------------------------------------------

  lemma {:induction false} ScriptGrows(exports: seq<Export>, name: string, value: string)
    ensures Script(exports + [(name, value)]) == Script(exports) + ExportLine(name, value)
  {
    hide ExportLine;
    if exports == [] {
      assert exports + [(name, value)] == [(name, value)];
      assert Script([(name, value)][1..]) == "";
    } else {
      assert (exports + [(name, value)])[1..] == exports[1..] + [(name, value)];
      ScriptGrows(exports[1..], name, value);
    }
  }

  class ScriptWriter {
    var text: string
    ghost var exports: seq<Export>

    ghost predicate Valid()
      reads this
    {
      text == Script(exports)
    }

    constructor ()
      ensures Valid() && exports == []
    {
      text, exports := "", [];
    }

    method WriteExport(name: string, value: string)
      requires Valid()
      modifies this
      ensures Valid() && exports == old(exports) + [(name, value)]
    {
      ScriptGrows(exports, name, value);
      text := text + ExportLine(name, value);
      exports := exports + [(name, value)];
    }
  }
}
