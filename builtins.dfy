/**
 * The few Python built-ins the core leans on, written out: `str()` and `int()`
 * on the values the core passes them, `str.strip()`, `str.split()`, the
 * substring test `in`, and `repr()` of a string.
 */
module Builtins {
  import opened Wrappers

  /** A Python value as it reaches `str()` or `int()` in the core. */
  datatype PyValue = PyNone | PyStr(s: string) | PyInt(i: int)

  /** The Python exceptions that the core's conversions can raise. */
  datatype PyError = ValueError | TypeError

  // ---------------------------------------------------------------------------
  // Decimal digits

  predicate IsDigit(c: char) { '0' <= c <= '9' }

  predicate AllDigits(s: string) { forall i :: 0 <= i < |s| ==> IsDigit(s[i]) }

  function DigitChar(d: nat): (c: char)
    requires d < 10
    ensures IsDigit(c)
  {
    ('0' as int + d) as char
  }

  function DigitValue(c: char): (d: nat)
    requires IsDigit(c)
    ensures d < 10
  {
    (c as int - '0' as int)
  }

  /** The value of a run of decimal digits, most significant first. */
  function DigitsValue(s: string): nat
    requires AllDigits(s)
  {
    if |s| == 0 then 0 else DigitsValue(s[..|s| - 1]) * 10 + DigitValue(s[|s| - 1])
  }

  /** Python's `str()` of a non-negative integer: its shortest decimal form. */
  function NatToString(n: nat): (s: string)
    ensures |s| > 0 && AllDigits(s)
  {
    if n < 10 then [DigitChar(n)] else NatToString(n / 10) + [DigitChar(n % 10)]
  }

  /** Python's `str()` of an integer. */
  function IntToString(i: int): (s: string)
    ensures |s| > 0
  {
    if i < 0 then "-" + NatToString(-i) else NatToString(i)
  }

  lemma {:induction false} DigitsValueOfNatToString(n: nat)
    ensures DigitsValue(NatToString(n)) == n
  {
    var s := NatToString(n);
    if n >= 10 {
      DigitsValueOfNatToString(n / 10);
      assert s[..|s| - 1] == NatToString(n / 10);
    }
  }

  // ---------------------------------------------------------------------------
  // Whitespace and str.strip()

  /**
   * The characters Python's `str.isspace()` accepts: those of Unicode category
   * Zs or of bidirectional class WS, B or S.
   */
  predicate IsSpace(c: char)
  {
    ('\t' <= c <= '\r') || ('\U{1c}' <= c <= ' ') || c == '\U{85}' || c == '\U{a0}' || c == '\U{1680}'
    || ('\U{2000}' <= c <= '\U{200a}') || c == '\U{2028}' || c == '\U{2029}' || c == '\U{202f}'
    || c == '\U{205f}' || c == '\U{3000}'
  }

  function StripLeft(s: string): (r: string)
    ensures |r| <= |s|
    ensures r == s[|s| - |r|..]
    ensures r == [] || !IsSpace(r[0])
    ensures forall i :: 0 <= i < |s| - |r| ==> IsSpace(s[i])
  {
    if |s| > 0 && IsSpace(s[0]) then StripLeft(s[1..]) else s
  }

  function StripRight(s: string): (r: string)
    ensures |r| <= |s|
    ensures r == s[..|r|]
    ensures r == [] || !IsSpace(r[|r| - 1])
    ensures forall i :: |r| <= i < |s| ==> IsSpace(s[i])
  {
    if |s| > 0 && IsSpace(s[|s| - 1]) then StripRight(s[..|s| - 1]) else s
  }

  /** Python's `str.strip()` with no argument. */
  function Strip(s: string): string
  {
    StripRight(StripLeft(s))
  }

  lemma StripUnchanged(s: string)
    requires s != [] && !IsSpace(s[0]) && !IsSpace(s[|s| - 1])
    ensures Strip(s) == s
  {
  }

  // ---------------------------------------------------------------------------
  // int() and str()

  /** `s` without its underscores. */
  function DropUnderscores(s: string): (r: string)
    ensures DigitsOrUnderscores(s) ==> AllDigits(r)
    ensures '_' !in s ==> r == s
  {
    if s == [] then [] else (if s[0] == '_' then [] else [s[0]]) + DropUnderscores(s[1..])
  }

  predicate DigitsOrUnderscores(s: string)
  {
    forall i :: 0 <= i < |s| ==> IsDigit(s[i]) || s[i] == '_'
  }

  /** ASCII digits, where a single underscore may stand between two of them. */
  predicate DigitGroups(s: string)
  {
    |s| > 0 && IsDigit(s[0]) && IsDigit(s[|s| - 1]) && DigitsOrUnderscores(s) && !ContainsSub(s, "__")
  }

  /** The value of the digit groups `body`, or `None` when it is not one. */
  function ParseDigits(body: string): (v: Option<nat>)
    ensures v.Some? <==> DigitGroups(body)
  {
    if DigitGroups(body) then Some(DigitsValue(DropUnderscores(body))) else None
  }

  /**
   * Python's `int()` on a string, base 10: surrounding whitespace is ignored,
   * then an optional sign and digit groups must make up the rest.
   */
  function ParseInt(s: string): Option<int>
  {
    var t := Strip(s);
    if |t| > 0 && (t[0] == '-' || t[0] == '+') then
      match ParseDigits(t[1..])
      case Some(v) => Some(if t[0] == '-' then 0 - v as int else v as int)
      case None => None
    else
      match ParseDigits(t)
      case Some(v) => Some(v)
      case None => None
  }

  /** Plain digits are digit groups, with nothing to drop. */
  lemma DigitsAreGroups(s: string)
    requires |s| > 0 && AllDigits(s)
    ensures ParseDigits(s) == Some(DigitsValue(s))
  {
    assert '_' !in s by {
      assert forall k :: 0 <= k < |s| ==> IsDigit(s[k]);
    }
    forall i | 0 <= i <= |s| - 2
      ensures !OccursAt(s, "__", i)
    {
      assert s[i..i + 2][0] == s[i] != '_';
    }
  }

  /** An underscore between digits is accepted: `int("1_0")` is 10. */
  lemma DigitsUnderscore()
    ensures ParseDigits("1_0") == Some(10)
  {
    var s := "1_0";
    assert |s| == 3 && s[0] == '1' && s[1] == '_' && s[2] == '0';
    assert !ContainsSub(s, "__") by {
      forall i | 0 <= i <= 1
        ensures !OccursAt(s, "__", i)
      {
        assert s[i..i + 2][2 * i - i] == s[2 * i] != '_';
      }
    }
    assert DigitsOrUnderscores(s);
    assert DigitGroups(s);
    assert DropUnderscores(s) == "10" by {
      assert s[1..] == "_0" && s[1..][1..] == "0";
      assert DropUnderscores("0") == "0";
      assert DropUnderscores("_0") == "0";
    }
    assert DigitsValue("10") == 10 by {
      assert "10"[..1] == "1";
    }
  }

  /** A doubled, a leading or a trailing underscore is refused. */
  lemma DigitsBadUnderscores()
    ensures ParseDigits("1__0") == None && ParseDigits("_1") == None && ParseDigits("1_") == None
  {
    assert OccursAt("1__0", "__", 1);
  }

  lemma ParseIntOfIntToString(i: int)
    ensures ParseInt(IntToString(i)) == Some(i)
  {
    var s := IntToString(i);
    var n := if i < 0 then -i else i;
    var digits := NatToString(n);
    DigitsValueOfNatToString(n);
    assert IsDigit(s[|s| - 1]);
    StripUnchanged(s);
    DigitsAreGroups(digits);
    if i < 0 {
      assert s[0] == '-' && s[1..] == digits;
    } else {
      assert s == digits && IsDigit(s[0]);
    }
  }

  /** Python's `str()` of the values the core converts. */
  function Str(v: PyValue): string
  {
    match v
    case PyNone => "None"
    case PyStr(s) => s
    case PyInt(i) => IntToString(i)
  }

  /** Python's `int()` of the values the core converts. */
  function Int(v: PyValue): (r: Result<int, PyError>)
    ensures v.PyInt? ==> r == Ok(v.i)
    ensures v.PyNone? ==> r == Err(TypeError)
    ensures v.PyStr? ==> (r.Ok? <==> ParseInt(v.s).Some?)
  {
    match v
    case PyNone => Err(TypeError)
    case PyInt(i) => Ok(i)
    case PyStr(s) => if ParseInt(s).Some? then Ok(ParseInt(s).value) else Err(ValueError)
  }

  lemma IntOfStr(i: int)
    ensures Int(PyStr(Str(PyInt(i)))) == Ok(i)
  {
    ParseIntOfIntToString(i);
  }

  // ---------------------------------------------------------------------------
  // Substrings, split and join

  /** Python's `sub in s` for strings. */
  predicate ContainsSub(s: string, sub: string)
  {
    exists i | 0 <= i <= |s| - |sub| :: OccursAt(s, sub, i)
  }

  predicate OccursAt(s: string, sub: string, i: nat)
  {
    i + |sub| <= |s| && s[i..i + |sub|] == sub
  }

  /** Python's `s.split(sep)` for a one-character separator. */
  function Split(s: string, sep: char): (parts: seq<string>)
    ensures |parts| > 0
    ensures forall k :: 0 <= k < |parts| ==> sep !in parts[k]
    ensures |parts| == 1 <==> sep !in s
    decreases |s|
  {
    if sep !in s then [s]
    else
      var i := FirstIndex(s, sep);
      [s[..i]] + Split(s[i + 1..], sep)
  }

  function FirstIndex(s: string, c: char): (i: nat)
    requires c in s
    ensures i < |s| && s[i] == c && c !in s[..i]
  {
    if s[0] == c then 0 else 1 + FirstIndex(s[1..], c)
  }

  /** Python's `sep.join(parts)`. */
  function Join(parts: seq<string>, sep: string): string
  {
    if |parts| == 0 then "" else if |parts| == 1 then parts[0] else parts[0] + sep + Join(parts[1..], sep)
  }

  lemma {:induction false} SplitJoin(parts: seq<string>, sep: char)
    requires |parts| > 0
    requires forall k :: 0 <= k < |parts| ==> sep !in parts[k]
    ensures Split(Join(parts, [sep]), sep) == parts
  {
    if |parts| > 1 {
      var rest := Join(parts[1..], [sep]);
      var s := parts[0] + [sep] + rest;
      assert s[|parts[0]|] == sep;
      assert FirstIndex(s, sep) == |parts[0]| by {
        FirstIndexOfPrefix(parts[0], sep, [sep] + rest);
      }
      assert s[..|parts[0]|] == parts[0];
      assert s[|parts[0]| + 1..] == rest;
      SplitJoin(parts[1..], sep);
    }
  }

  lemma FirstIndexOfPrefix(a: string, c: char, b: string)
    requires c !in a && b != [] && b[0] == c
    ensures c in a + b && FirstIndex(a + b, c) == |a|
  {
    assert (a + b)[|a|] == c;
    var i := FirstIndex(a + b, c);
    assert forall k :: 0 <= k < |a| ==> (a + b)[k] == a[k];
    assert forall k :: 0 <= k < i ==> (a + b)[..i][k] == (a + b)[k];
  }

  // ---------------------------------------------------------------------------
  // repr() of a string

  function HexDigit(d: nat): char
    requires d < 16
  {
    if d < 10 then DigitChar(d) else ('a' as int + d - 10) as char
  }

  /** The escape Python's `repr()` writes for one character inside `quote`s. */
  function EscapeChar(c: char, quote: char): string
  {
    if c == quote || c == '\\' then ['\\', c]
    else if c == '\t' then "\\t"
    else if c == '\n' then "\\n"
    else if c == '\r' then "\\r"
    else if c < ' ' || ('\U{7f}' <= c <= '\U{a0}') || c == '\U{ad}' then ['\\', 'x', HexDigit(c as int / 16), HexDigit(c as int % 16)]
    else [c]
  }

  function EscapeAll(s: string, quote: char): string
  {
    if s == [] then [] else EscapeChar(s[0], quote) + EscapeAll(s[1..], quote)
  }

  /**
   * Python's `repr()` of a string: single quotes unless the text holds a single
   * quote and no double quote.
   */
  function ReprStr(s: string): (r: string)
    ensures |r| >= 2 && r[0] == r[|r| - 1] && (r[0] == '\'' || r[0] == '"')
    ensures '\'' !in s ==> r[0] == '\''
  {
    var quote := if '\'' in s && '"' !in s then '"' else '\'';
    [quote] + EscapeAll(s, quote) + [quote]
  }

  lemma {:induction false} EscapeAllPlain(s: string, quote: char)
    requires forall i :: 0 <= i < |s| ==> s[i] != quote && s[i] != '\\' && ' ' <= s[i] < '\U{7f}'
    ensures EscapeAll(s, quote) == s
  {
    if s != [] {
      EscapeAllPlain(s[1..], quote);
    }
  }
}
