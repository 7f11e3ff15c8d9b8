/** The string operations the wire formats are built from. */
module Text {
  import opened Wrappers

  /** `str::split`: every piece between separators, empty ones included. */
  function Split(s: string, sep: char): (parts: seq<string>)
    ensures |parts| > 0
    ensures forall i :: 0 <= i < |parts| ==> sep !in parts[i]
  {
    if s == "" then [""]
    else
      var rest := Split(s[1..], sep);
      if s[0] == sep then [""] + rest else [[s[0]] + rest[0]] + rest[1..]
  }

  /** `str::split_once`: the text before and after the first separator. */
  function SplitOnce(s: string, sep: char): (r: Option<(string, string)>)
    ensures r.None? <==> sep !in s
    ensures r.Some? ==> sep !in r.value.0 && s == r.value.0 + [sep] + r.value.1
  {
    if s == "" then None
    else if s[0] == sep then
      assert s == "" + [sep] + s[1..];
      Some(("", s[1..]))
    else
      match SplitOnce(s[1..], sep)
      case None => None
      case Some((before, after)) =>
        assert s == [s[0]] + before + [sep] + after;
        Some(([s[0]] + before, after))
  }

  function Join(parts: seq<string>, sep: char): string {
    if parts == [] then ""
    else if |parts| == 1 then parts[0]
    else parts[0] + [sep] + Join(parts[1..], sep)
  }

  function NonEmpty(parts: seq<string>): (r: seq<string>)
    ensures forall i :: 0 <= i < |r| ==> r[i] in parts && r[i] != ""
  {
    if parts == [] then []
    else (if parts[0] == "" then [] else [parts[0]]) + NonEmpty(parts[1..])
  }

  lemma {:induction false} SplitPlain(s: string, sep: char)
    requires sep !in s
    ensures Split(s, sep) == [s]
  {
    if s != "" {
      SplitPlain(s[1..], sep);
      assert [s[0]] + s[1..] == s;
    }
  }

  lemma {:induction false} SplitFirst(s: string, sep: char, rest: string)
    requires sep !in s
    ensures Split(s + [sep] + rest, sep) == [s] + Split(rest, sep)
  {
    var t := s + [sep] + rest;
    if s == "" {
      assert t[1..] == rest;
    } else {
      assert t[1..] == s[1..] + [sep] + rest;
      SplitFirst(s[1..], sep, rest);
      assert [s[0]] + s[1..] == s;
    }
  }

  /** Splitting undoes joining when no part contains the separator. */
  lemma {:induction false} SplitJoin(parts: seq<string>, sep: char)
    requires parts != [] && forall i :: 0 <= i < |parts| ==> sep !in parts[i]
    ensures Split(Join(parts, sep), sep) == parts
  {
    if |parts| == 1 {
      SplitPlain(parts[0], sep);
    } else {
      SplitJoin(parts[1..], sep);
      SplitFirst(parts[0], sep, Join(parts[1..], sep));
      assert parts == [parts[0]] + parts[1..];
    }
  }

  lemma {:induction false} SplitOnceAt(before: string, sep: char, after: string)
    requires sep !in before
    ensures SplitOnce(before + [sep] + after, sep) == Some((before, after))
  {
    var s := before + [sep] + after;
    if before == "" {
      assert s[1..] == after;
    } else {
      assert s[1..] == before[1..] + [sep] + after;
      SplitOnceAt(before[1..], sep, after);
      assert [before[0]] + before[1..] == before;
    }
  }

  lemma {:induction false} NonEmptyAll(parts: seq<string>)
    requires forall i :: 0 <= i < |parts| ==> parts[i] != ""
    ensures NonEmpty(parts) == parts
  {
    if parts != [] {
      NonEmptyAll(parts[1..]);
    }
  }

  // ----- trimming ----------------------------------------------------------------------------

  /** `char::is_whitespace` */
  predicate IsWhitespace(c: char) {
    || '\t' <= c <= '\r' || '\U{2000}' <= c <= '\U{200A}'
    || c in " \U{85}\U{A0}\U{1680}\U{2028}\U{2029}\U{202F}\U{205F}\U{3000}"
  }

  function TrimStart(s: string): string {
    if s != "" && IsWhitespace(s[0]) then TrimStart(s[1..]) else s
  }

  function TrimEnd(s: string): string {
    if s != "" && IsWhitespace(s[|s| - 1]) then TrimEnd(s[..|s| - 1]) else s
  }

  /** `str::trim` */
  function Trim(s: string): string {
    TrimEnd(TrimStart(s))
  }

  /** Trimming takes whitespace off the end, all of it and nothing else. */
  lemma {:induction false} TrimEndExactly(s: string)
    ensures var t := TrimEnd(s);
      && t <= s && (forall i :: |t| <= i < |s| ==> IsWhitespace(s[i]))
      && (t == "" || !IsWhitespace(t[|t| - 1]))
  {
    if s != "" && IsWhitespace(s[|s| - 1]) {
      hide IsWhitespace;
      TrimEndExactly(s[..|s| - 1]);
    }
  }

  lemma TrimEndKeeps(s: string)
    ensures TrimEnd(s) == s <==> s == "" || !IsWhitespace(s[|s| - 1])
  {
    hide IsWhitespace;
    TrimEndExactly(s);
  }

  /** What trimming an end takes away stops at the last character that is not whitespace. */
  lemma {:induction false} TrimEndStops(before: string, c: char, after: string)
    requires !IsWhitespace(c)
    ensures TrimEnd(before + [c] + after) == before + [c] + TrimEnd(after)
    decreases |after|
  {
    hide IsWhitespace;
    var s := before + [c] + after;
    if after != "" && IsWhitespace(after[|after| - 1]) {
      assert s[..|s| - 1] == before + [c] + after[..|after| - 1];
      TrimEndStops(before, c, after[..|after| - 1]);
    }
  }

  // ----- decimal numbers ---------------------------------------------------------------------

  function Digits(s: string): Option<nat> {
    if s == "" then Some(0)
    else
      match Digits(s[..|s| - 1])
      case None => None
      case Some(n) =>
        var c := s[|s| - 1];
        if '0' <= c <= '9' then Some(10 * n + (c - '0') as nat) else None
  }

  /** How a number is written out. */
  function Decimal(n: nat): (s: string)
    ensures s != "" && forall i :: 0 <= i < |s| ==> '0' <= s[i] <= '9'
  {
    (if n < 10 then "" else Decimal(n / 10)) + ['0' + (n % 10) as char]
  }

  lemma {:induction false} DecimalReads(n: nat)
    ensures Digits(Decimal(n)) == Some(n)
  {
    var s := Decimal(n);
    if n < 10 {
      assert s[..|s| - 1] == "" && Digits("") == Some(0);
    } else {
      DecimalReads(n / 10);
      assert s[..|s| - 1] == Decimal(n / 10);
    }
  }

  /** `str::parse` for an unsigned type with `size` values: ASCII digits, an optional leading plus
      sign, no overflow. */
  function ParseUnsigned(s: string, size: nat): (r: Option<nat>)
    ensures r.Some? ==> r.value < size
  {
    var digits := if s != "" && s[0] == '+' then s[1..] else s;
    if digits == "" then None
    else
      match Digits(digits)
      case Some(n) => if n < size then Some(n) else None
      case None => None
  }

  function ParseU16(s: string): (r: Option<nat>)
    ensures r.Some? ==> r.value < 0x1_0000
  {
    ParseUnsigned(s, 0x1_0000)
  }

  /** A number as people write it: its decimal digits, after any zeros and at most one plus sign. */
  ghost predicate Spells(s: string, n: nat) {
    exists zeros: nat :: s == LeadingZeros(zeros) + Decimal(n) || s == "+" + (LeadingZeros(zeros) + Decimal(n))
  }

  function LeadingZeros(k: nat): (s: string)
    ensures |s| == k && forall i :: 0 <= i < k ==> s[i] == '0'
  {
    if k == 0 then "" else LeadingZeros(k - 1) + "0"
  }

  lemma {:induction false} ZerosRead(k: nat)
    ensures Digits(LeadingZeros(k)) == Some(0)
  {
    if k > 0 {
      ZerosRead(k - 1);
      assert LeadingZeros(k)[..k - 1] == LeadingZeros(k - 1);
    }
  }

  lemma {:induction false} DigitsAfter(front: string, back: string)
    requires Digits(front) == Some(0)
    ensures Digits(front + back) == Digits(back)
  {
    var s := front + back;
    if back == "" {
      assert s == front;
    } else {
      assert s[..|s| - 1] == front + back[..|back| - 1];
      DigitsAfter(front, back[..|back| - 1]);
    }
  }

  /** A digit behind a number: a longer number, or the digit itself when the number is zero. */
  lemma DecimalGrows(m: nat, last: char, n: nat)
    requires '0' <= last <= '9' && n == 10 * m + (last - '0') as nat
    ensures Decimal(n) == if m > 0 then Decimal(m) + [last] else [last]
  {
    assert n / 10 == m && n % 10 == (last - '0') as nat;
    assert (n % 10) as char == last - '0';
  }

  lemma LastDigit(front: string, last: char)
    requires Digits(front + [last]).Some?
    ensures Digits(front).Some? && '0' <= last <= '9'
    ensures Digits(front + [last]) == Some(10 * Digits(front).value + (last - '0') as nat)
  {
    var s := front + [last];
    assert s[..|s| - 1] == front;
  }

  lemma SpelledGrows(zeros: nat, m: nat, last: char, n: nat) returns (more: nat)
    requires Decimal(n) == if m > 0 then Decimal(m) + [last] else [last]
    ensures LeadingZeros(zeros) + Decimal(m) + [last] == LeadingZeros(more) + Decimal(n)
  {
    hide Decimal, LeadingZeros;
    if m == 0 {
      OneMoreZero(zeros);
      more := zeros + 1;
    } else {
      more := zeros;
      assert LeadingZeros(zeros) + Decimal(m) + [last] == LeadingZeros(zeros) + (Decimal(m) + [last]);
    }
  }

  lemma {:induction false} DigitsAreDecimal(s: string) returns (zeros: nat)
    requires s != "" && Digits(s).Some?
    ensures s == LeadingZeros(zeros) + Decimal(Digits(s).value)
  {
    var front, last := s[..|s| - 1], s[|s| - 1];
    assert s == front + [last];
    hide Decimal, LeadingZeros, Digits;
    LastDigit(front, last);
    NoZeros();
    if front == "" {
      DecimalGrows(0, last, Digits(s).value);
      zeros := 0;
    } else {
      DecimalGrows(Digits(front).value, last, Digits(s).value);
      var before := DigitsAreDecimal(front);
      zeros := SpelledGrows(before, Digits(front).value, last, Digits(s).value);
    }
  }

  lemma NoZeros()
    ensures LeadingZeros(0) == "" && Digits("") == Some(0)
  {
  }

  lemma OneMoreZero(k: nat)
    ensures LeadingZeros(k) + Decimal(0) == LeadingZeros(k + 1)
  {
    assert Decimal(0) == "0";
  }

  /** Parsing accepts exactly the spellings of the numbers the type can hold, and yields the number. */
  lemma ParsesSpellings(s: string, n: nat, size: nat)
    ensures ParseUnsigned(s, size) == Some(n) <==> n < size && Spells(s, n)
  {
    if ParseUnsigned(s, size) == Some(n) {
      var digits := if s != "" && s[0] == '+' then s[1..] else s;
      var zeros := DigitsAreDecimal(digits);
      assert s[0] == '+' ==> s == "+" + digits;
      assert Spells(s, n);
    }
    if n < size && Spells(s, n) {
      SpellingReads(s, n);
    }
  }

  lemma SpellingReads(s: string, n: nat)
    requires Spells(s, n)
    ensures var digits := if s != "" && s[0] == '+' then s[1..] else s;
      digits != "" && Digits(digits) == Some(n)
  {
    var zeros: nat :| s == LeadingZeros(zeros) + Decimal(n) || s == "+" + (LeadingZeros(zeros) + Decimal(n));
    var digits := LeadingZeros(zeros) + Decimal(n);
    ZerosRead(zeros);
    DecimalReads(n);
    DigitsAfter(LeadingZeros(zeros), Decimal(n));
    DigitsOnly(digits);
    assert digits[0] != '+' && ("+" + digits)[1..] == digits;
  }

  /** A number's own digits spell it. */
  lemma DecimalSpells(n: nat)
    ensures Spells(Decimal(n), n)
  {
    assert LeadingZeros(0) + Decimal(n) == Decimal(n);
  }

  predicate DigitOrPlus(c: char) {
    c == '+' || '0' <= c <= '9'
  }

  lemma {:induction false} DigitsOnly(s: string)
    requires Digits(s).Some?
    ensures forall i :: 0 <= i < |s| ==> '0' <= s[i] <= '9'
  {
    if s != "" {
      DigitsOnly(s[..|s| - 1]);
    }
  }

  /** A string that parses as a port holds nothing that could be mistaken for a separator. */
  lemma PortChars(s: string)
    requires ParseU16(s).Some?
    ensures forall i :: 0 <= i < |s| ==> DigitOrPlus(s[i])
  {
    if s != "" && s[0] == '+' {
      DigitsOnly(s[1..]);
      forall i | 0 <= i < |s|
        ensures DigitOrPlus(s[i])
      {
        if i > 0 {
          assert s[i] == s[1..][i - 1];
        }
      }
    } else {
      DigitsOnly(s);
    }
  }
}
