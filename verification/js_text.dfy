/** The string built-ins the modelled scripts call: whitespace as JavaScript's
    `\s` and `trim` see it, `toLowerCase`, `replace` with a string pattern,
    `startsWith`/`endsWith`, `parseInt`, and the NaN test that `isNaN` applies
    to a string. */
module JsText {
  import opened JsValues

  /** JavaScript's WhiteSpace and LineTerminator characters: what `\s`
      matches and what `trim` removes. U+0009..U+000D are tab, line feed,
      vertical tab, form feed and carriage return. */
  predicate IsJsSpace(c: char) {
    ('\t' <= c <= '\r') || c == ' ' || c == '\U{A0}' || c == '\U{1680}'
    || ('\U{2000}' <= c <= '\U{200A}') || c == '\U{2028}' || c == '\U{2029}'
    || c == '\U{202F}' || c == '\U{205F}' || c == '\U{3000}' || c == '\U{FEFF}'
  }

  function TrimStart(s: string): (r: string)
    ensures |r| <= |s|
    ensures r != [] ==> !IsJsSpace(r[0])
    ensures forall k :: 0 <= k < |s| - |r| ==> IsJsSpace(s[k])
  {
    if s != [] && IsJsSpace(s[0]) then TrimStart(s[1..]) else s
  }

  function TrimEnd(s: string): (r: string)
    ensures |r| <= |s|
    ensures r != [] ==> !IsJsSpace(r[|r| - 1])
    ensures forall k :: |r| <= k < |s| ==> IsJsSpace(s[k])
  {
    if s != [] && IsJsSpace(s[|s| - 1]) then TrimEnd(s[..|s| - 1]) else s
  }

  /** What TrimStart keeps is a suffix of its input. */
  lemma {:induction false} TrimStartSuffix(s: string)
    ensures TrimStart(s) == s[|s| - |TrimStart(s)|..]
  {
    if s != [] && IsJsSpace(s[0]) {
      TrimStartSuffix(s[1..]);
      assert s[1..][|s[1..]| - |TrimStart(s[1..])|..] == s[|s| - |TrimStart(s)|..];
    }
  }

  /** What TrimEnd keeps is a prefix of its input. */
  lemma {:induction false} TrimEndPrefix(s: string)
    ensures TrimEnd(s) == s[..|TrimEnd(s)|]
  {
    if s != [] && IsJsSpace(s[|s| - 1]) {
      TrimEndPrefix(s[..|s| - 1]);
      assert s[..|s| - 1][..|TrimEnd(s)|] == s[..|TrimEnd(s)|];
    }
  }

  /** `s.trim()` */
  function Trim(s: string): string {
    TrimEnd(TrimStart(s))
  }

  /** `s.trim()` keeps the middle of the string: it drops only whitespace, and
      the result neither starts nor ends with whitespace. */
  lemma TrimSpec(s: string)
    ensures exists i, j :: (0 <= i <= j <= |s| && Trim(s) == s[i..j]
      && (forall k :: 0 <= k < i ==> IsJsSpace(s[k]))
      && (forall k :: j <= k < |s| ==> IsJsSpace(s[k])))
    ensures Trim(s) != [] ==> !IsJsSpace(Trim(s)[0]) && !IsJsSpace(Trim(s)[|Trim(s)| - 1])
  {
    var t := TrimStart(s);
    TrimStartSuffix(s);
    TrimEndPrefix(t);
    var i := |s| - |t|;
    var j := i + |TrimEnd(t)|;
    assert Trim(s) == s[i..j];
  }

  predicate StartsWith(s: string, p: string) {
    |p| <= |s| && s[..|p|] == p
  }

  predicate EndsWith(s: string, p: string) {
    |p| <= |s| && s[|s| - |p|..] == p
  }

  /** Position of the first occurrence of `pat` in `s` at or after `from`. */
  function IndexOfFrom(s: string, pat: string, from: nat): (r: Option<nat>)
    requires from <= |s|
    ensures r.Some? ==> from <= r.value && r.value + |pat| <= |s| && s[r.value..r.value + |pat|] == pat
    ensures r.Some? ==> forall k :: from <= k < r.value ==> !StartsWith(s[k..], pat)
    ensures r.None? ==> forall k :: from <= k <= |s| ==> !StartsWith(s[k..], pat)
    decreases |s| - from
  {
    if StartsWith(s[from..], pat) then Some(from)
    else if from == |s| then None
    else IndexOfFrom(s, pat, from + 1)
  }

  /** `s.indexOf(pat)`, None for -1. */
  function IndexOf(s: string, pat: string): Option<nat> {
    IndexOfFrom(s, pat, 0)
  }

  /** `s.replace(pat, '')` with a string pattern: removes the first occurrence
      only, and leaves `s` as it is when `pat` does not occur. */
  function RemoveFirst(s: string, pat: string): string {
    match IndexOf(s, pat)
    case None => s
    case Some(i) => s[..i] + s[i + |pat|..]
  }

  /** `s.replace(pat, '')` on a string that starts with `pat` removes exactly
      that prefix, whatever follows it. */
  lemma RemoveFirstOfPrefix(pat: string, rest: string)
    ensures RemoveFirst(pat + rest, pat) == rest
  {
    assert StartsWith((pat + rest)[0..], pat);
    assert (pat + rest)[|pat|..] == rest;
  }

  /** `toLowerCase` on one character, for the characters whose lower-case form
      contains an ASCII letter: A..Z, U+212A KELVIN SIGN (to 'k') and U+0130
      (to 'i' followed by U+0307). Every other character is kept as it is. */
  function LowerChar(c: char): string {
    if 'A' <= c <= 'Z' then [(c as int + 32) as char]
    else if c == '\U{212A}' then "k"
    else if c == '\U{130}' then "i\U{307}"
    else [c]
  }

  /** `s.toLowerCase()`: no ASCII capital survives. */
  function ToLowerCase(s: string): (r: string)
    ensures forall i :: 0 <= i < |r| ==> !('A' <= r[i] <= 'Z')
  {
    if s == [] then [] else LowerChar(s[0]) + ToLowerCase(s[1..])
  }

  /** The value of a digit character in radixes up to 36 (36 for anything
      else, which is a digit in no radix). */
  function DigitValue(c: char): nat {
    if '0' <= c <= '9' then c as int - '0' as int
    else if 'a' <= c <= 'z' then c as int - 'a' as int + 10
    else if 'A' <= c <= 'Z' then c as int - 'A' as int + 10
    else 36
  }

  /** Length of the longest prefix of `s` made of digits of `radix`. */
  function DigitPrefix(s: string, radix: nat): (n: nat)
    ensures n <= |s|
    ensures forall k :: 0 <= k < n ==> DigitValue(s[k]) < radix
    ensures n < |s| ==> DigitValue(s[n]) >= radix
  {
    if s != [] && DigitValue(s[0]) < radix then 1 + DigitPrefix(s[1..], radix) else 0
  }

  /** The number a string of digits denotes in `radix`. */
  function DigitsValue(ds: string, radix: nat): nat {
    if ds == [] then 0
    else DigitsValue(ds[..|ds| - 1], radix) * radix + DigitValue(ds[|ds| - 1])
  }

  /** The longest run of `radix` digits at the start of `body`, as a number;
      None when there is no digit. */
  function LeadingNumber(body: string, radix: nat): Option<nat> {
    var n := DigitPrefix(body, radix);
    if n == 0 then None else Some(DigitsValue(body[..n], radix))
  }

  /** The unsigned part of parseInt: a `0x`/`0X` prefix selects radix 16. */
  function ParseUnsigned(u: string): Option<nat> {
    if |u| >= 2 && u[0] == '0' && (u[1] == 'x' || u[1] == 'X') then LeadingNumber(u[2..], 16)
    else LeadingNumber(u, 10)
  }

  function Signed(neg: bool, v: Option<nat>): Option<int> {
    match v
    case None => None
    case Some(x) =>
      var r: int := if neg then -(x as int) else x;
      Some(r)
  }

  /** `parseInt(s)` with no radix argument: leading whitespace, an optional
      sign, a `0x`/`0X` prefix for hexadecimal, then the longest run of digits;
      None is NaN (no digit at all). */
  function ParseInt(s: string): Option<int> {
    var t := TrimStart(s);
    if t != [] && t[0] == '-' then Signed(true, ParseUnsigned(t[1..]))
    else if t != [] && t[0] == '+' then Signed(false, ParseUnsigned(t[1..]))
    else Signed(false, ParseUnsigned(t))
  }

  lemma {:induction false} DigitsValueOfNumeral(m: nat)
    ensures DigitsValue(NatToString(m), 10) == m
    decreases m
  {
    if m >= 10 {
      var pre := NatToString(m / 10);
      var d := DigitChar(m % 10);
      assert NatToString(m) == pre + [d];
      assert (pre + [d])[..|pre|] == pre;
      DigitsValueOfNumeral(m / 10);
    }
  }

  lemma {:induction false} DigitPrefixAll(s: string, radix: nat)
    requires forall k :: 0 <= k < |s| ==> DigitValue(s[k]) < radix
    ensures DigitPrefix(s, radix) == |s|
    decreases |s|
  {
    if s != [] {
      DigitPrefixAll(s[1..], radix);
    }
  }

  /** On a string that does not start with whitespace, parseInt reads the
      sign and the digits directly. */
  lemma ParseIntUntrimmed(s: string)
    requires s != [] && !IsJsSpace(s[0])
    ensures s[0] == '-' ==> ParseInt(s) == Signed(true, ParseUnsigned(s[1..]))
    ensures '0' <= s[0] <= '9' ==> ParseInt(s) == Signed(false, ParseUnsigned(s))
  {
    assert TrimStart(s) == s;
  }

  /** Round trip: `parseInt(String(n))` gives `n` back for every integer, so
      a year stored as a number is read back exactly. */
  lemma ParseIntOfNumeral(n: int)
    ensures ParseInt(NumToString(n)) == Some(n)
  {
    if n < 0 {
      var m: nat := -n;
      var u := NatToString(m);
      ParseUnsignedOfNumeral(m);
      var s := "-" + u;
      assert s[1..] == u;
      ParseIntUntrimmed(s);
      assert ParseInt(s) == Signed(true, Some(m));
      assert NumToString(n) == s;
    } else {
      var u := NatToString(n);
      ParseUnsignedOfNumeral(n);
      ParseIntUntrimmed(u);
      assert NumToString(n) == u;
    }
  }

  lemma ParseUnsignedOfNumeral(m: nat)
    ensures ParseUnsigned(NatToString(m)) == Some(m)
  {
    var u := NatToString(m);
    assert forall k :: 0 <= k < |u| ==> DigitValue(u[k]) < 10;
    DigitPrefixAll(u, 10);
    assert u[..|u|] == u;
    DigitsValueOfNumeral(m);
  }

  /** Digits of radix 10 and nothing else, at least one. */
  predicate IsDecimalDigits(s: string) {
    s != [] && forall k :: 0 <= k < |s| ==> '0' <= s[k] <= '9'
  }

  predicate AllDigitsOf(s: string, radix: nat) {
    s != [] && forall k :: 0 <= k < |s| ==> DigitValue(s[k]) < radix
  }

  /** StrUnsignedDecimalLiteral without the `Infinity` form:
      digits [ '.' [digits] ] or '.' digits. */
  predicate IsMantissa(m: string) {
    match IndexOf(m, ".")
    case None => IsDecimalDigits(m)
    case Some(d) =>
      var a := m[..d];
      var b := m[d + 1..];
      (a == [] || IsDecimalDigits(a)) && (b == [] || IsDecimalDigits(b)) && (a != [] || b != [])
  }

  /** An optional exponent part: nothing, or e/E, an optional sign and digits. */
  predicate IsExponentPart(x: string) {
    x == [] ||
    (x[0] in {'e', 'E'} &&
      var y := x[1..];
      var z := if y != [] && y[0] in {'+', '-'} then y[1..] else y;
      IsDecimalDigits(z))
  }

  function FirstExponentMark(s: string): nat {
    match IndexOf(s, "e")
    case Some(i) =>
      (match IndexOf(s, "E") case Some(j) => if j < i then j else i case None => i)
    case None =>
      (match IndexOf(s, "E") case Some(j) => j case None => |s|)
  }

  predicate IsUnsignedDecimal(t: string) {
    t == "Infinity" ||
    (var k := FirstExponentMark(t);
     k <= |t| && IsMantissa(t[..k]) && IsExponentPart(t[k..]))
  }

  /** StringNumericLiteral after trimming: empty, a signed decimal literal
      (including Infinity), or a 0x/0o/0b integer. */
  predicate IsNumericLiteral(t: string) {
    t == []
    || (|t| > 2 && t[0] == '0' && t[1] in {'x', 'X'} && AllDigitsOf(t[2..], 16))
    || (|t| > 2 && t[0] == '0' && t[1] in {'o', 'O'} && AllDigitsOf(t[2..], 8))
    || (|t| > 2 && t[0] == '0' && t[1] in {'b', 'B'} && AllDigitsOf(t[2..], 2))
    || (t[0] in {'+', '-'} && IsUnsignedDecimal(t[1..]))
    || IsUnsignedDecimal(t)
  }

  /** `isNaN(s)` for a string: Number(s) is NaN exactly when the trimmed
      string is not a numeric literal. */
  predicate IsNaNString(s: string) {
    !IsNumericLiteral(Trim(s))
  }
}
