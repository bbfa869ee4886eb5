/** normalizeSubject, which turns a subject into the key the preference
    counts use, and extractDecade, which turns a publication date into the
    decade the counts use. */
module Subjects {
  import opened JsValues
  import opened JsText

  /** `\w` without the `u` flag: ASCII letters, digits and '_' only. */
  predicate IsWordChar(c: char) {
    ('a' <= c <= 'z') || ('A' <= c <= 'Z') || ('0' <= c <= '9') || c == '_'
  }

  /** `.replace(/[^\w\s]/g, '')`: drops every character that is neither a
      word character nor whitespace. */
  function StripNonWord(s: string): (r: string)
    ensures |r| <= |s|
    ensures forall i :: 0 <= i < |r| ==> IsWordChar(r[i]) || IsJsSpace(r[i])
    ensures (forall i :: 0 <= i < |s| ==> !('A' <= s[i] <= 'Z')) ==> forall i :: 0 <= i < |r| ==> !('A' <= r[i] <= 'Z')
  {
    if s == [] then []
    else (if IsWordChar(s[0]) || IsJsSpace(s[0]) then [s[0]] else []) + StripNonWord(s[1..])
  }

  /** `.replace(/\s+/g, ' ')`: every maximal run of whitespace becomes one
      space. */
  function CollapseSpaces(s: string): (r: string)
    ensures s != [] ==> r != []
    decreases |s|
  {
    if s == [] then []
    else if IsJsSpace(s[0]) then [' '] + CollapseSpaces(TrimStart(s[1..]))
    else [s[0]] + CollapseSpaces(s[1..])
  }

  /** normalizeSubject: lower case, strip, collapse, trim. */
  function NormalizeSubject(s: string): string {
    Trim(CollapseSpaces(StripNonWord(ToLowerCase(s))))
  }

  /** The characters a normalised subject is made of. */
  predicate IsKeyChar(c: char) {
    ('a' <= c <= 'z') || ('0' <= c <= '9') || c == '_' || c == ' '
  }

  /** The shape of a normalised subject: only lower-case ASCII letters,
      digits, '_' and single inner spaces. */
  predicate IsNormalized(t: string) {
    (forall i :: 0 <= i < |t| ==> IsKeyChar(t[i]))
    && (forall i :: 0 <= i < |t| - 1 ==> !(t[i] == ' ' && t[i + 1] == ' '))
    && (t != [] ==> t[0] != ' ' && t[|t| - 1] != ' ')
  }

  lemma CollapseFirst(s: string)
    requires s != []
    ensures IsJsSpace(s[0]) ==> CollapseSpaces(s)[0] == ' '
    ensures !IsJsSpace(s[0]) ==> CollapseSpaces(s)[0] == s[0]
  {
  }

  /** After collapsing, whitespace is only single spaces, and the other
      characters are those of the input. */
  lemma {:induction false} CollapseShape(s: string)
    requires forall i :: 0 <= i < |s| ==> IsKeyChar(s[i]) || IsJsSpace(s[i])
    ensures forall i :: 0 <= i < |CollapseSpaces(s)| ==> IsKeyChar(CollapseSpaces(s)[i])
    ensures forall i :: 0 <= i < |CollapseSpaces(s)| - 1 ==>
      !(CollapseSpaces(s)[i] == ' ' && CollapseSpaces(s)[i + 1] == ' ')
    decreases |s|
  {
    if s != [] {
      var r := CollapseSpaces(s);
      if IsJsSpace(s[0]) {
        var u := TrimStart(s[1..]);
        TrimStartSuffix(s[1..]);
        assert forall i :: 0 <= i < |u| ==> u[i] == s[1..][|s[1..]| - |u| + i];
        CollapseShape(u);
        assert r == [' '] + CollapseSpaces(u);
        if u != [] {
          CollapseFirst(u);
        }
      } else {
        CollapseShape(s[1..]);
        assert r == [s[0]] + CollapseSpaces(s[1..]);
        if s[1..] != [] {
          CollapseFirst(s[1..]);
        }
        assert r[0] != ' ';
      }
    }
  }

  /** Lower-casing then stripping leaves only lower-case word characters and
      whitespace. */
  lemma StrippedChars(s: string)
    ensures forall i :: 0 <= i < |StripNonWord(ToLowerCase(s))| ==>
      IsKeyChar(StripNonWord(ToLowerCase(s))[i]) || IsJsSpace(StripNonWord(ToLowerCase(s))[i])
  {
    var l := ToLowerCase(s);
    var t := StripNonWord(l);
    forall i | 0 <= i < |t| ensures IsKeyChar(t[i]) || IsJsSpace(t[i]) {
      assert !('A' <= t[i] <= 'Z');
    }
  }

  /** Trimming a collapsed string takes a contiguous piece of it without
      edge spaces. */
  lemma TrimCollapsed(c: string)
    requires forall i :: 0 <= i < |c| ==> IsKeyChar(c[i])
    requires forall i :: 0 <= i < |c| - 1 ==> !(c[i] == ' ' && c[i + 1] == ' ')
    ensures IsNormalized(Trim(c))
  {
    var u := TrimStart(c);
    var t := TrimEnd(u);
    TrimStartSuffix(c);
    TrimEndPrefix(u);
    assert Trim(c) == t;
    var off := |c| - |u|;
    assert forall k :: 0 <= k < |u| ==> u[k] == c[off + k];
    assert forall k :: 0 <= k < |t| ==> t[k] == u[k];
    assert t != [] ==> !IsJsSpace(t[0]) && !IsJsSpace(t[|t| - 1]);
  }

  /** Every normalised subject is lower case, made only of ASCII word
      characters and single inner spaces, with no space at either end. */
  lemma NormalizeSubjectShape(s: string)
    ensures IsNormalized(NormalizeSubject(s))
  {
    var st := StripNonWord(ToLowerCase(s));
    StrippedChars(s);
    CollapseShape(st);
    var c := CollapseSpaces(st);
    assert forall i :: 0 <= i < |c| ==> IsKeyChar(c[i]);
    assert forall i :: 0 <= i < |c| - 1 ==> !(c[i] == ' ' && c[i + 1] == ' ');
    TrimCollapsed(c);
  }

  lemma {:induction false} LowerOfNormalized(t: string)
    requires forall i :: 0 <= i < |t| ==> IsKeyChar(t[i])
    ensures ToLowerCase(t) == t
  {
    if t != [] {
      LowerOfNormalized(t[1..]);
      assert t == [t[0]] + t[1..];
    }
  }

  lemma {:induction false} StripOfNormalized(t: string)
    requires forall i :: 0 <= i < |t| ==> IsKeyChar(t[i])
    ensures StripNonWord(t) == t
  {
    if t != [] {
      StripOfNormalized(t[1..]);
      assert t == [t[0]] + t[1..];
    }
  }

  lemma {:induction false} CollapseOfNormalized(t: string)
    requires forall i :: 0 <= i < |t| ==> IsKeyChar(t[i])
    requires forall i :: 0 <= i < |t| - 1 ==> !(t[i] == ' ' && t[i + 1] == ' ')
    ensures CollapseSpaces(t) == t
  {
    if t != [] {
      CollapseOfNormalized(t[1..]);
      if t[0] == ' ' {
        if t[1..] != [] {
          assert t[1..][0] == t[1];
          assert IsKeyChar(t[1]) && t[1] != ' ';
        }
        assert TrimStart(t[1..]) == t[1..];
      } else {
        assert !IsJsSpace(t[0]);
      }
      assert t == [t[0]] + t[1..];
    }
  }

  /** Normalising is idempotent: a normalised subject is its own key. */
  lemma NormalizeSubjectIdempotent(s: string)
    ensures NormalizeSubject(NormalizeSubject(s)) == NormalizeSubject(s)
  {
    var t := NormalizeSubject(s);
    NormalizeSubjectShape(s);
    LowerOfNormalized(t);
    StripOfNormalized(t);
    CollapseOfNormalized(t);
    assert t != [] ==> !IsJsSpace(t[0]) && !IsJsSpace(t[|t| - 1]);
    assert TrimStart(t) == t;
    assert TrimEnd(t) == t;
  }

  /** extractDecade: `parseInt(date)`, null when that is NaN, else
      `Math.floor(year / 10) * 10`. The date is first turned into a string,
      as parseInt does. */
  function ExtractDecade(date: Js): Option<int> {
    match ParseInt(ToStr(date))
    case None => None
    case Some(year) => Some(year / 10 * 10)
  }

  /** The decade is null exactly when parseInt finds no number; otherwise it
      is the multiple of ten at or below the year, less than ten years
      before it. */
  lemma ExtractDecadeSpec(date: Js)
    ensures ExtractDecade(date).None? <==> ParseInt(ToStr(date)).None?
    ensures ExtractDecade(date).Some? ==>
      var y := ParseInt(ToStr(date)).value;
      var d := ExtractDecade(date).value;
      d % 10 == 0 && d <= y < d + 10
  {
    var p := ParseInt(ToStr(date));
    if p.Some? {
      DecadeBounds(p.value);
    }
  }

  lemma DecadeBounds(y: int)
    ensures (y / 10 * 10) % 10 == 0 && y / 10 * 10 <= y < y / 10 * 10 + 10
  {
    assert y == 10 * (y / 10) + y % 10 && 0 <= y % 10 < 10;
  }

  /** A year stored as a number, or as its decimal string, gives its own
      decade. */
  lemma ExtractDecadeOfYear(year: int)
    ensures ExtractDecade(Num(year)) == Some(year / 10 * 10)
    ensures ExtractDecade(Str(NumToString(year))) == Some(year / 10 * 10)
  {
    ParseIntOfNumeral(year);
  }
}
