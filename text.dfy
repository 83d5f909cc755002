/**
 The Python string built-ins the checklist relies on, over `string` (a sequence of
 Unicode scalar values): `str.isspace`, `str.strip()`, `str.rsplit(c, 1)`, `str.endswith`,
 the slice `s[:-1]`, `str(n)` for an integer and `int(s)` for a decimal string.
 */
module PyText {

  datatype Option<T> = None | Some(value: T) {
    /** The value, or `default` when there is none (an `except:` fallback). */
    function GetOr(default: T): T {
      match this
      case Some(v) => v
      case None => default
    }
  }

  /** `c.isspace()`: the characters Python treats as whitespace. */
  predicate IsSpace(c: char) {
    ('\t' <= c <= '\r') || ('\U{1C}' <= c <= ' ') || c == '\U{85}' || c == '\U{A0}'
    || c == '\U{1680}' || ('\U{2000}' <= c <= '\U{200A}') || c == '\U{2028}' || c == '\U{2029}'
    || c == '\U{202F}' || c == '\U{205F}' || c == '\U{3000}'
  }

  predicate IsDigit(c: char) {
    '0' <= c <= '9'
  }

  function DigitValue(c: char): nat
    requires IsDigit(c)
  {
    (c as int) - ('0' as int)
  }

  /** Number of characters of the class `sp` at the front of `s`. */
  function Leading(s: string, sp: char -> bool): (n: nat)
    ensures n <= |s|
    ensures forall i :: 0 <= i < n ==> sp(s[i])
    ensures n == |s| || !sp(s[n])
  {
    if s == [] || !sp(s[0]) then 0 else 1 + Leading(s[1..], sp)
  }

  /** Number of characters of the class `sp` at the back of `s`. */
  function Trailing(s: string, sp: char -> bool): (n: nat)
    ensures n <= |s|
    ensures forall i :: |s| - n <= i < |s| ==> sp(s[i])
    ensures n == |s| || !sp(s[|s| - 1 - n])
  {
    if s == [] || !sp(s[|s| - 1]) then 0 else 1 + Trailing(s[..|s| - 1], sp)
  }

  /** `s` without the characters of the class `sp` at either end: the stretch
      of `s` that starts right after its leading `sp` characters and is
      followed by `sp` characters only. */
  function StripBy(s: string, sp: char -> bool): (r: string)
    ensures Leading(s, sp) + |r| <= |s|
    ensures r == s[Leading(s, sp)..Leading(s, sp) + |r|]
    ensures forall i :: Leading(s, sp) + |r| <= i < |s| ==> sp(s[i])
  {
    var a := Leading(s, sp);
    var t := s[a..];
    var n := Trailing(t, sp);
    assert forall i :: a + |t| - n <= i < |s| ==> s[i] == t[i - a];
    t[..|t| - n]
  }

  /** What `StripBy` keeps has no `sp` character at either end, is empty
      exactly when every character of `s` is in `sp`, and holds only
      characters of `s`. */
  lemma StripByShape(s: string, sp: char -> bool)
    ensures StripBy(s, sp) == [] || (!sp(StripBy(s, sp)[0]) && !sp(StripBy(s, sp)[|StripBy(s, sp)| - 1]))
    ensures StripBy(s, sp) == [] <==> forall i :: 0 <= i < |s| ==> sp(s[i])
    ensures forall c :: c in StripBy(s, sp) ==> c in s
  {
    var r, a := StripBy(s, sp), Leading(s, sp);
    assert forall k :: 0 <= k < |r| ==> r[k] == s[a + k];
    if r != [] {
      assert !sp(r[0]) by { assert r[0] == s[a]; }
      var t := s[a..];
      assert r == t[..|t| - Trailing(t, sp)];
      assert r[|r| - 1] == t[|t| - 1 - Trailing(t, sp)];
    }
  }

  /** A string that neither starts nor ends with a character of `sp` is left
      as it stands. */
  lemma StripByUnpadded(s: string, sp: char -> bool)
    requires s == [] || (!sp(s[0]) && !sp(s[|s| - 1]))
    ensures StripBy(s, sp) == s
  {
    if s != [] {
      assert Leading(s, sp) == 0;
      assert Trailing(s, sp) == 0;
    }
  }

  /** `s.strip()`: `s` without its leading and trailing whitespace. */
  function Strip(s: string): (r: string)
    ensures |r| <= |s|
  {
    StripBy(s, IsSpace)
  }

  /** Position of the last occurrence of `c` in `s`. */
  function LastIndexOf(s: string, c: char): (r: Option<nat>)
    ensures r.Some? ==> r.value < |s| && s[r.value] == c && c !in s[r.value + 1..]
    ensures r.None? <==> c !in s
  {
    if s == [] then None
    else if s[|s| - 1] == c then Some(|s| - 1)
    else
      var r := LastIndexOf(s[..|s| - 1], c);
      assert s == s[..|s| - 1] + [s[|s| - 1]];
      assert r.Some? ==> s[r.value + 1..] == s[..|s| - 1][r.value + 1..] + [s[|s| - 1]];
      r
  }

  /** `s.rsplit(c, 1)`: `[s]` when `c` does not occur, otherwise the text before
      and the text after the LAST occurrence of `c`. */
  function RSplit1(s: string, c: char): (parts: seq<string>)
    ensures |parts| == 1 || |parts| == 2
    ensures |parts| == 2 <==> c in s
    ensures |parts| == 1 ==> parts[0] == s
    ensures |parts| == 2 ==> s == parts[0] + [c] + parts[1] && c !in parts[1]
  {
    match LastIndexOf(s, c)
    case None => [s]
    case Some(k) =>
      assert s == s[..k] + [c] + s[k + 1..];
      [s[..k], s[k + 1..]]
  }

  /** `s.endswith(c)` for a one-character suffix. */
  predicate EndsWith(s: string, c: char) {
    |s| > 0 && s[|s| - 1] == c
  }

  /** The slice `s[:-1]`, which is empty for an empty `s`. */
  function DropLast(s: string): (r: string)
    ensures |s| > 0 ==> s == r + [s[|s| - 1]]
  {
    if s == [] then [] else s[..|s| - 1]
  }

  /** Decimal digits where an underscore may sit between two digits, as `int()` accepts them. */
  predicate DigitRun(d: string)
    decreases |d|
  {
    |d| > 0 && IsDigit(d[|d| - 1]) &&
    (|d| == 1 || DigitRun(d[..|d| - 1]) || (d[|d| - 2] == '_' && DigitRun(d[..|d| - 2])))
  }

  /** The number the digits of `d` spell, underscores ignored. */
  function DigitsValue(d: string): nat
  {
    if d == [] then 0
    else if IsDigit(d[|d| - 1]) then 10 * DigitsValue(d[..|d| - 1]) + DigitValue(d[|d| - 1])
    else DigitsValue(d[..|d| - 1])
  }

  function DigitChar(k: nat): (c: char)
    requires k < 10
    ensures IsDigit(c) && DigitValue(c) == k
  {
    (('0' as int) + k) as char
  }

  /** `str(n)` for a non-negative integer: its decimal digits without leading zeros. */
  function NatToString(n: nat): (s: string)
    ensures |s| > 0 && DigitRun(s)
    ensures forall i :: 0 <= i < |s| ==> IsDigit(s[i])
    ensures |s| > 1 ==> s[0] != '0'
    ensures DigitsValue(s) == n
  {
    if n < 10 then [DigitChar(n)]
    else
      var s := NatToString(n / 10) + [DigitChar(n % 10)];
      assert s[..|s| - 1] == NatToString(n / 10);
      s
  }

  /** `str(n)` for any integer. */
  function IntToString(n: int): string
  {
    if n < 0 then "-" + NatToString(-n) else NatToString(n)
  }

  /** The whitespace `int()` skips around a number: the characters `isspace()`
      accepts except the ASCII separators U+001C..U+001F, which `int()` keeps
      and then rejects. */
  predicate IsIntSpace(c: char) {
    IsSpace(c) && !('\U{1C}' <= c <= '\U{1F}')
  }

  /** What `int()` reads once its surrounding whitespace is skipped. */
  function IntStrip(s: string): (r: string)
    ensures |r| <= |s|
  {
    StripBy(s, IsIntSpace)
  }

  /** `int(s)`: surrounding whitespace, then an optional sign, then a digit run;
      `None` where Python raises `ValueError`. */
  function ParseInt(s: string): Option<int>
  {
    var t := IntStrip(s);
    if |t| > 0 && (t[0] == '+' || t[0] == '-') then
      var v: int := DigitsValue(t[1..]);
      if DigitRun(t[1..]) then Some(if t[0] == '-' then -v else v) else None
    else if DigitRun(t) then Some(DigitsValue(t))
    else None
  }

  /** `int()` skips less than `strip()` does: `strip()` removes a leading
      U+001C, while `int()` keeps it and fails. */
  lemma IntSpaceNarrower()
    ensures Strip("\U{1C}5") == "5"
    ensures ParseInt("\U{1C}5") == None
  {
    var s := "\U{1C}5";
    assert Leading(s, IsSpace) == 1;
    assert s[1..] == "5";
    assert Trailing("5", IsSpace) == 0;
    StripByUnpadded(s, IsIntSpace);
    assert !DigitRun(s[..1]);
  }

  /** A string whose last character is not whitespace loses only its leading whitespace. */
  lemma StripUnpaddedEnd(s: string)
    requires s != [] && !IsSpace(s[|s| - 1])
    ensures Leading(s, IsSpace) < |s|
    ensures Strip(s) == s[Leading(s, IsSpace)..]
  {
    LeadingBefore(s, IsSpace, |s| - 1);
    StripNoTrailing(s[Leading(s, IsSpace)..]);
  }

  /** Stripping a string's tail needs a whitespace character at its end. */
  lemma StripNoTrailing(t: string)
    requires t != [] && !IsSpace(t[|t| - 1])
    ensures t[..|t| - Trailing(t, IsSpace)] == t
  {
    assert Trailing(t, IsSpace) == 0;
  }

  /** The leading `sp` characters end at the latest at the first other character. */
  lemma {:induction false} LeadingBefore(s: string, sp: char -> bool, k: nat)
    requires k < |s| && !sp(s[k])
    ensures Leading(s, sp) <= k
  {
    if k > 0 && sp(s[0]) {
      LeadingBefore(s[1..], sp, k - 1);
    }
  }

  /** Text appended after a character outside `sp` does not change the leading run. */
  lemma LeadingAppend(s: string, x: string, sp: char -> bool)
    requires Leading(s, sp) < |s|
    ensures Leading(s + x, sp) == Leading(s, sp)
  {
    var a, u := Leading(s, sp), s + x;
    assert forall i :: 0 <= i < a ==> u[i] == s[i];
    assert !sp(u[a]);
  }

  /** Whitespace appended to a string vanishes under `strip()`. */
  lemma StripAppendSpace(s: string, c: char)
    requires IsSpace(c)
    ensures Strip(s + [c]) == Strip(s)
  {
    var u := s + [c];
    var a := Leading(s, IsSpace);
    if a == |s| {
      assert forall i :: 0 <= i < |u| ==> IsSpace(u[i]);
    } else {
      LeadingAppend(s, [c], IsSpace);
      var t, tu := s[a..], u[a..];
      assert tu[..|tu| - 1] == t;
      var n := Trailing(t, IsSpace);
      assert Trailing(tu, IsSpace) == 1 + n;
      assert tu[..|tu| - (1 + n)] == t[..|t| - n];
    }
  }

  /** The last occurrence of `c` is where `rsplit(c, 1)` cuts, whatever precedes it. */
  lemma RSplitAtLast(s: string, c: char, a: string, b: string)
    requires s == a + [c] + b && c !in b
    ensures RSplit1(s, c) == [a, b]
  {
    assert s[|a|] == c;
    var parts := RSplit1(s, c);
    var p, q := parts[0], parts[1];
    assert s[|p|] == c;
    assert forall j :: |a| < j < |s| ==> s[j] == b[j - |a| - 1];
    assert forall j :: |p| < j < |s| ==> s[j] == q[j - |p| - 1];
    assert |p| == |a|;
    assert q == s[|s| - |q|..] == b;
    assert p == s[..|p|] == a;
  }

  /** `str(n)` for a natural number starts and ends with a digit. */
  lemma NatToStringShape(n: nat)
    ensures !IsSpace(NatToString(n)[0]) && !IsSpace(NatToString(n)[|NatToString(n)| - 1])
    ensures '(' !in NatToString(n) && ')' !in NatToString(n)
  {
    var s := NatToString(n);
    assert IsDigit(s[0]) && IsDigit(s[|s| - 1]);
    assert forall i :: 0 <= i < |s| ==> s[i] != '(' && s[i] != ')';
  }

  /** `str(n)` contains no parenthesis and ends with a digit. */
  lemma IntToStringShape(n: int)
    ensures '(' !in IntToString(n) && ')' !in IntToString(n)
    ensures |IntToString(n)| > 0 && !IsSpace(IntToString(n)[0])
    ensures IsDigit(IntToString(n)[|IntToString(n)| - 1])
  {
    NatToStringShape(if n < 0 then -n else n);
  }

  /** `int(str(n)) == n` for every integer `n`. */
  lemma ParseIntRoundTrip(n: int)
    ensures ParseInt(IntToString(n)) == Some(n)
  {
    var s := IntToString(n);
    IntToStringShape(n);
    assert IntStrip(s) == s by {
      assert !IsIntSpace(s[0]) && !IsIntSpace(s[|s| - 1]);
      StripByUnpadded(s, IsIntSpace);
    }
    if n < 0 {
      assert s[1..] == NatToString(-n);
    } else {
      assert IsDigit(s[0]);
    }
  }
}
