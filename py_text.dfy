// The Python string behaviour the editor relies on: str(int), int(text),
// str.lower, str.title, str.replace, str.split and str()/repr() of values.

module PyText {
  import opened Wrappers
  import opened JsonValue

  // ---------------------------------------------------------------------
  // str(int) and int(str)

  function Digit(d: nat): char
    requires d < 10
  {
    "0123456789"[d]
  }

  predicate IsDigit(c: char) { '0' <= c <= '9' }

  function DigitValue(c: char): nat
    requires IsDigit(c)
  {
    (c as int) - ('0' as int)
  }

  /** Decimal digits of a natural number, most significant first, no leading zero. */
  function NatToDecimal(n: nat): (r: string)
    ensures |r| > 0 && forall i :: 0 <= i < |r| ==> IsDigit(r[i])
    decreases n
  {
    if n < 10 then [Digit(n)] else NatToDecimal(n / 10) + [Digit(n % 10)]
  }

  /** `str(i)` for an int: a minus sign exactly for a negative number, then decimal digits. */
  function IntToStr(i: int): (r: string)
    ensures |r| > 0
    ensures r[0] == '-' <==> i < 0
    ensures forall k :: (if i < 0 then 1 else 0) <= k < |r| ==> IsDigit(r[k])
  {
    if i < 0 then "-" + NatToDecimal(-i) else NatToDecimal(i)
  }

  /** The characters for which Python's `str.isspace()` holds. */
  const Whitespace: set<char> := {
    '\t', '\n', '\U{0b}', '\U{0c}', '\r', '\U{1c}', '\U{1d}', '\U{1e}', '\U{1f}', ' ',
    '\U{85}', '\U{a0}', '\U{1680}',
    '\U{2000}', '\U{2001}', '\U{2002}', '\U{2003}', '\U{2004}', '\U{2005}',
    '\U{2006}', '\U{2007}', '\U{2008}', '\U{2009}', '\U{200a}',
    '\U{2028}', '\U{2029}', '\U{202f}', '\U{205f}', '\U{3000}'
  }

  predicate IsSpace(c: char) { c in Whitespace }

  function StripLeft(s: string): (r: string)
    ensures |r| <= |s| && r == s[|s| - |r|..]
    ensures r != [] ==> !IsSpace(r[0])
  {
    if s != [] && IsSpace(s[0]) then StripLeft(s[1..]) else s
  }

  function StripRight(s: string): (r: string)
    ensures |r| <= |s| && r == s[..|r|]
    ensures r != [] ==> !IsSpace(r[|r| - 1])
  {
    if s != [] && IsSpace(s[|s| - 1]) then StripRight(s[..|s| - 1]) else s
  }

  /** `s.strip()` */
  function Strip(s: string): string {
    StripRight(StripLeft(s))
  }

  /**
   * The digit part `int()` accepts in base 10: ASCII digits, with single
   * underscores allowed between two digits.
   */
  predicate DigitGroups(s: string) {
    && |s| > 0
    && IsDigit(s[0]) && IsDigit(s[|s| - 1])
    && (forall i :: 0 <= i < |s| ==> IsDigit(s[i]) || s[i] == '_')
    && (forall i :: 0 <= i < |s| - 1 ==> s[i] == '_' ==> s[i + 1] != '_')
  }

  /** The number the digits spell, underscores skipped. */
  function DigitsValue(s: string): nat
    requires forall i :: 0 <= i < |s| ==> IsDigit(s[i]) || s[i] == '_'
  {
    if s == [] then 0
    else if s[|s| - 1] == '_' then DigitsValue(s[..|s| - 1])
    else DigitsValue(s[..|s| - 1]) * 10 + DigitValue(s[|s| - 1])
  }

  /**
   * `int(text)`: surrounding whitespace is ignored, one optional sign, then
   * digit groups; anything else raises ValueError, which is None here.
   */
  function ParseInt(text: string): (r: Option<int>)
    ensures r.Some? ==> |Strip(text)| > 0 && IsDigit(Strip(text)[|Strip(text)| - 1])
    ensures r.Some? && r.value < 0 ==> Strip(text)[0] == '-'
  {
    ParseSigned(Strip(text))
  }

  /** An optional sign followed by digit groups. */
  function ParseSigned(t: string): (r: Option<int>)
    ensures r.Some? ==> |t| > 0 && IsDigit(t[|t| - 1])
    ensures r.Some? && r.value < 0 ==> t[0] == '-'
  {
    if |t| > 0 && (t[0] == '+' || t[0] == '-') then
      if DigitGroups(t[1..]) then
        var n: int := DigitsValue(t[1..]);
        Some(if t[0] == '-' then -n else n)
      else None
    else if DigitGroups(t) then Some(DigitsValue(t))
    else None
  }

  lemma {:induction false} DecimalValue(n: nat)
    ensures DigitGroups(NatToDecimal(n))
    ensures DigitsValue(NatToDecimal(n)) == n
    decreases n
  {
    var d := NatToDecimal(n);
    if n >= 10 {
      DecimalValue(n / 10);
      assert d[..|d| - 1] == NatToDecimal(n / 10);
      assert DigitValue(Digit(n % 10)) == n % 10;
    } else {
      assert DigitValue(Digit(n)) == n;
    }
  }

  lemma StripNoSpace(s: string)
    requires forall i :: 0 <= i < |s| ==> !IsSpace(s[i])
    ensures Strip(s) == s
  {
    if s != [] {
      assert !IsSpace(s[0]) && !IsSpace(s[|s| - 1]);
    }
  }

  lemma DigitNotSpace(c: char)
    requires IsDigit(c) || c == '-'
    ensures !IsSpace(c)
  {
  }

  lemma IntToStrNoSpace(i: int)
    ensures forall k :: 0 <= k < |IntToStr(i)| ==> !IsSpace(IntToStr(i)[k])
  {
    var t := IntToStr(i);
    forall k | 0 <= k < |t| ensures !IsSpace(t[k]) {
      if i < 0 && k > 0 {
        assert t[k] == NatToDecimal(-i)[k - 1];
      }
      DigitNotSpace(t[k]);
    }
  }

  /** `int(str(i)) == i`: the text a leaf row stores reads back as the same integer. */
  lemma IntTextRoundTrip(i: int)
    ensures ParseInt(IntToStr(i)) == Some(i)
  {
    StripIntToStr(i);
    ParseSignedIntToStr(i);
  }

  lemma StripIntToStr(i: int)
    ensures Strip(IntToStr(i)) == IntToStr(i)
  {
    IntToStrNoSpace(i);
    StripNoSpace(IntToStr(i));
  }

  lemma ParseSignedIntToStr(i: int)
    ensures ParseSigned(IntToStr(i)) == Some(i)
  {
    if i < 0 {
      var n: nat := -i;
      assert IntToStr(i) == "-" + NatToDecimal(n);
      ParseNegative(n);
    } else {
      assert IntToStr(i) == NatToDecimal(i);
      ParseNonNegative(i);
    }
  }

  lemma ParseNonNegative(n: nat)
    ensures ParseSigned(NatToDecimal(n)) == Some(n as int)
  {
    DecimalValue(n);
    assert IsDigit(NatToDecimal(n)[0]);
  }

  lemma ParseNegative(n: nat)
    ensures ParseSigned("-" + NatToDecimal(n)) == Some(-(n as int))
  {
    DecimalValue(n);
    assert ("-" + NatToDecimal(n))[1..] == NatToDecimal(n);
  }

  // ---------------------------------------------------------------------
  // Case mapping (ASCII letters; other characters have no case here)

  predicate IsUpper(c: char) { 'A' <= c <= 'Z' }
  predicate IsLower(c: char) { 'a' <= c <= 'z' }
  predicate IsCased(c: char) { IsUpper(c) || IsLower(c) }

  function LowerChar(c: char): char {
    if IsUpper(c) then (c as int + 32) as char else c
  }

  function UpperChar(c: char): char {
    if IsLower(c) then (c as int - 32) as char else c
  }

  /** `s.lower()` */
  function Lower(s: string): (r: string)
    ensures |r| == |s|
    ensures forall i :: 0 <= i < |s| ==> r[i] == LowerChar(s[i])
  {
    seq(|s|, i requires 0 <= i < |s| => LowerChar(s[i]))
  }

  /**
   * `s.title()`: a cased character that follows a cased character is
   * lowered, any other one is raised.
   */
  function Title(s: string): (r: string)
    ensures |r| == |s|
    ensures forall k :: 0 <= k < |s| ==>
      r[k] == (if k > 0 && IsCased(s[k - 1]) then LowerChar(s[k]) else UpperChar(s[k]))
  {
    TitleFrom(s, false)
  }

  function TitleFrom(s: string, previousCased: bool): (r: string)
    ensures |r| == |s|
    ensures forall k :: 0 <= k < |s| ==>
      r[k] == (if (if k == 0 then previousCased else IsCased(s[k - 1])) then LowerChar(s[k]) else UpperChar(s[k]))
    decreases |s|
  {
    if s == [] then []
    else
      var c := if previousCased then LowerChar(s[0]) else UpperChar(s[0]);
      var rest := TitleFrom(s[1..], IsCased(s[0]));
      assert forall k :: 1 <= k < |s| ==> ([c] + rest)[k] == rest[k - 1] && s[1..][k - 1] == s[k];
      [c] + rest
  }

  predicate StartsWith(s: string, prefix: string) {
    |prefix| <= |s| && s[..|prefix|] == prefix
  }

  // ---------------------------------------------------------------------
  // str.replace and str.split

  predicate OccursAt(s: string, sub: string, i: int) {
    0 <= i && i + |sub| <= |s| && s[i..i + |sub|] == sub
  }

  predicate Contains(s: string, sub: string) {
    exists i :: 0 <= i <= |s| && OccursAt(s, sub, i)
  }

  /**
   * `s.replace(pat, rep)`: occurrences of a non-empty `pat` are replaced
   * left to right without overlapping; an empty `pat` matches before every
   * character and at the end.
   */
  function Replace(s: string, pat: string, rep: string): (r: string)
    ensures pat == [] ==> |r| == |s| + (|s| + 1) * |rep|
    ensures rep == pat ==> r == s
  {
    if pat == [] then InsertBetween(s, rep) else ReplaceFrom(s, pat, rep)
  }

  function InsertBetween(s: string, rep: string): (r: string)
    ensures |r| == |s| + (|s| + 1) * |rep|
    ensures rep == [] ==> r == s
  {
    if s == [] then rep
    else
      assert [s[0]] + s[1..] == s;
      rep + [s[0]] + InsertBetween(s[1..], rep)
  }

  /** Replacing a non-empty text by itself gives the string back. */
  function ReplaceFrom(s: string, pat: string, rep: string): (r: string)
    requires pat != []
    ensures rep == pat ==> r == s
    decreases |s|
  {
    if |s| < |pat| then s
    else if s[..|pat|] == pat then
      assert s[..|pat|] + s[|pat|..] == s;
      rep + ReplaceFrom(s[|pat|..], pat, rep)
    else
      assert [s[0]] + s[1..] == s;
      [s[0]] + ReplaceFrom(s[1..], pat, rep)
  }

  /** A non-empty search text that does not occur leaves the string as it is. */
  lemma {:induction false} ReplaceAbsent(s: string, pat: string, rep: string)
    requires pat != [] && !Contains(s, pat)
    ensures Replace(s, pat, rep) == s
    decreases |s|
  {
    if |s| >= |pat| {
      assert !OccursAt(s, pat, 0);
      assert s[0..|pat|] == s[..|pat|];
      forall i | 0 <= i <= |s[1..]| ensures !OccursAt(s[1..], pat, i) {
        if i + |pat| <= |s[1..]| {
          assert s[1..][i..i + |pat|] == s[i + 1..i + 1 + |pat|];
          assert !OccursAt(s, pat, i + 1);
        }
      }
      ReplaceAbsent(s[1..], pat, rep);
    }
  }

  /** `s.split(sep)` for a non-empty separator. */
  function Split(s: string, sep: string): (parts: seq<string>)
    requires sep != []
    ensures |parts| > 0
  {
    SplitFrom(s, sep, "")
  }

  function SplitFrom(s: string, sep: string, current: string): (parts: seq<string>)
    requires sep != []
    ensures |parts| > 0
    decreases |s|
  {
    if StartsWith(s, sep) then [current] + SplitFrom(s[|sep|..], sep, "")
    else if s == [] then [current]
    else SplitFrom(s[1..], sep, current + [s[0]])
  }

  /** The total length of a run of texts. */
  function TotalLength(parts: seq<string>): nat {
    if parts == [] then 0 else |parts[0]| + TotalLength(parts[1..])
  }

  /** `sep.join(parts)`: every part in order, one separator between two neighbours. */
  function Join(parts: seq<string>, sep: string): (r: string)
    requires |parts| > 0
    ensures |r| == TotalLength(parts) + (|parts| - 1) * |sep|
    ensures r[..|parts[0]|] == parts[0]
  {
    if |parts| == 1 then parts[0] else parts[0] + sep + Join(parts[1..], sep)
  }

  /** Splitting and joining with the same separator gives the text back. */
  lemma JoinSplit(s: string, sep: string)
    requires sep != []
    ensures Join(Split(s, sep), sep) == s
  {
    JoinSplitFrom(s, sep, "");
  }

  lemma {:induction false} JoinSplitFrom(s: string, sep: string, current: string)
    requires sep != []
    ensures Join(SplitFrom(s, sep, current), sep) == current + s
    decreases |s|
  {
    if StartsWith(s, sep) {
      JoinSplitFrom(s[|sep|..], sep, "");
      assert current + sep + ("" + s[|sep|..]) == current + s;
    } else if s == [] {
    } else {
      JoinSplitFrom(s[1..], sep, current + [s[0]]);
      assert current + [s[0]] + s[1..] == current + s;
    }
  }

  // ---------------------------------------------------------------------
  // str() and repr() of values

  function HexDigit(d: nat): char
    requires d < 16
  {
    "0123456789abcdef"[d]
  }

  /** One character inside a quoted repr. */
  function EscapeChar(c: char, quote: char): string {
    if c == '\\' then "\\\\"
    else if c == quote then ['\\', quote]
    else if c == '\t' then "\\t"
    else if c == '\n' then "\\n"
    else if c == '\r' then "\\r"
    else if (c as int) < 32 || (c as int) == 127 then
      ['\\', 'x', HexDigit((c as int) / 16), HexDigit((c as int) % 16)]
    else [c]
  }

  function EscapeAll(s: string, quote: char): string {
    if s == [] then [] else EscapeChar(s[0], quote) + EscapeAll(s[1..], quote)
  }

  /** `repr(s)`: single quotes unless the text holds a single quote and no double quote. */
  function ReprStr(s: string): (r: string)
    ensures |r| >= 2 && r[0] == r[|r| - 1]
    ensures r[0] == '"' <==> '\'' in s && '"' !in s
    ensures r[0] != '"' ==> r[0] == '\''
  {
    var quote := if '\'' in s && '"' !in s then '"' else '\'';
    [quote] + EscapeAll(s, quote) + [quote]
  }

  function ReprBool(b: bool): string { if b then "True" else "False" }

  /** The parts joined by ", ", or nothing when there are none. */
  function CommaList(parts: seq<string>): string {
    if parts == [] then "" else Join(parts, ", ")
  }

  /**
   * `repr(v)`; an OrderedDict prints as it does up to Python 3.11. A list
   * prints in brackets, a tuple in parentheses, a dict in braces and a
   * string in quotes.
   */
  function Repr(v: Json): (r: string)
    ensures |r| > 0
    ensures v.Arr? && v.seqKind == PyList ==> r[0] == '[' && r[|r| - 1] == ']'
    ensures v.Arr? && v.seqKind == PyTuple ==> r[0] == '(' && r[|r| - 1] == ')'
    ensures v.Obj? && v.mapKind == PlainDict ==> r[0] == '{' && r[|r| - 1] == '}'
    ensures v.Str? ==> |r| >= 2 && r[0] == r[|r| - 1] && (r[0] == '\'' || r[0] == '"')
  {
    match v
    case Null => "None"
    case Bool(b) => ReprBool(b)
    case Int(i) => IntToStr(i)
    case Str(s) => ReprStr(s)
    case Arr(kind, xs) =>
      var items := CommaList(seq(|xs|, i requires 0 <= i < |xs| => Repr(xs[i])));
      if kind == PyList then "[" + items + "]"
      else if |xs| == 1 then "(" + items + ",)"
      else "(" + items + ")"
    case Obj(PlainDict, es) =>
      "{" + CommaList(seq(|es|, i requires 0 <= i < |es| => ReprStr(es[i].0) + ": " + Repr(es[i].1))) + "}"
    case Obj(OrderedDict, es) =>
      if es == [] then "OrderedDict()"
      else
        "OrderedDict([" +
        CommaList(seq(|es|, i requires 0 <= i < |es| => "(" + ReprStr(es[i].0) + ", " + Repr(es[i].1) + ")")) +
        "])"
  }

  /**
   * `str(v)`: a string is itself, everything else its repr; the text of a
   * bool or an int reads back as the same value.
   */
  function PyStr(v: Json): (r: string)
    ensures v.Str? ==> r == v.s
    ensures v.Bool? ==> (r == "True" <==> v.b) && (r == "True" || r == "False")
    ensures v.Int? ==> ParseInt(r) == Some(v.i)
    ensures v.Null? ==> r == "None"
  {
    if v.Str? then v.s
    else if v.Int? then
      IntTextRoundTrip(v.i);
      Repr(v)
    else Repr(v)
  }

  /** After a cased character, a run of lower-case letters is left alone by title casing. */
  lemma {:induction false} TitleLowerRun(s: string)
    requires forall i :: 0 <= i < |s| ==> IsLower(s[i])
    ensures TitleFrom(s, true) == s
    decreases |s|
  {
    if s != [] {
      TitleLowerRun(s[1..]);
      assert s == [s[0]] + s[1..];
    }
  }

  /** A capitalised word is its own title case. */
  lemma TitleWord(s: string)
    requires |s| > 0 && IsUpper(s[0])
    requires forall i :: 1 <= i < |s| ==> IsLower(s[i])
    ensures Title(s) == s
  {
    TitleLowerRun(s[1..]);
    assert s == [s[0]] + s[1..];
  }

  /** The value column of a bool shows "True" or "False" unchanged by title casing. */
  lemma BoolTitle(b: bool)
    ensures Title(PyStr(Bool(b))) == ReprBool(b)
  {
    TitleWord(ReprBool(b));
  }
}
