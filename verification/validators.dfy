/** The form validators of utils.js. Each returns null (None) when the value
    is acceptable and its one fixed message otherwise. */
module Validators {
  import opened JsValues
  import opened JsText

  const EmailMessage := "El correo electrónico no tiene un formato válido"
  const PasswordMessage := "La contraseña debe tener al menos 6 caracteres"
  const MinPasswordLength := 6

  /** `El campo ${fieldName} es obligatorio` */
  function RequiredMessage(fieldName: string): string {
    "El campo " + fieldName + " es obligatorio"
  }

  /** validateRequired: null exactly for a truthy value. */
  function ValidateRequired(value: Js, fieldName: string): (r: Option<string>)
    ensures r.None? <==> Truthy(value)
    ensures r.Some? ==> r.value == RequiredMessage(fieldName)
  {
    if Truthy(value) then None else Some(RequiredMessage(fieldName))
  }

  /** A run of `[^\s@]`: no whitespace and no '@'. */
  predicate NoSpaceNoAt(t: string) {
    forall k :: 0 <= k < |t| ==> !IsJsSpace(t[k]) && t[k] != '@'
  }

  /** The language of `^[^\s@]+@[^\s@]+\.[^\s@]+$`: a non-empty run, '@', a
      non-empty run, '.', a non-empty run, the runs free of whitespace and
      '@' (they may hold further dots). */
  predicate MatchesEmailPattern(s: string) {
    exists at, dot ::
      && 0 < at && at + 1 < dot && dot + 1 < |s|
      && s[at] == '@' && s[dot] == '.'
      && NoSpaceNoAt(s[..at]) && NoSpaceNoAt(s[at + 1..dot]) && NoSpaceNoAt(s[dot + 1..])
  }

  /** validateEmail: `re.test(email)` decides. */
  function ValidateEmail(email: string): (r: Option<string>)
    ensures r.None? <==> MatchesEmailPattern(email)
    ensures r.Some? ==> r.value == EmailMessage
  {
    if MatchesEmailPattern(email) then None else Some(EmailMessage)
  }

  /** The address shape in plain terms: no whitespace, exactly one '@', not
      first, and a '.' after it with at least one character on each side. */
  predicate PlainEmail(s: string) {
    && (forall k :: 0 <= k < |s| ==> !IsJsSpace(s[k]))
    && exists at ::
      && 0 < at < |s| && s[at] == '@'
      && (forall k :: 0 <= k < |s| && s[k] == '@' ==> k == at)
      && exists dot :: at + 1 < dot < |s| - 1 && s[dot] == '.'
  }

  /** The pattern accepts exactly the plain address shape, in both
      directions. */
  lemma EmailPatternIff(s: string)
    ensures MatchesEmailPattern(s) <==> PlainEmail(s)
  {
    if MatchesEmailPattern(s) {
      PatternIsPlain(s);
    }
    if PlainEmail(s) {
      PlainIsPattern(s);
    }
  }

  lemma PatternIsPlain(s: string)
    requires MatchesEmailPattern(s)
    ensures PlainEmail(s)
  {
    var at, dot :|
      && 0 < at && at + 1 < dot && dot + 1 < |s|
      && s[at] == '@' && s[dot] == '.'
      && NoSpaceNoAt(s[..at]) && NoSpaceNoAt(s[at + 1..dot]) && NoSpaceNoAt(s[dot + 1..]);
    var user, host, tld := s[..at], s[at + 1..dot], s[dot + 1..];
    forall k | 0 <= k < |s|
      ensures !IsJsSpace(s[k]) && (s[k] == '@' ==> k == at)
    {
      if k < at {
        assert user[k] == s[k];
      } else if at < k < dot {
        assert host[k - at - 1] == s[k];
      } else if dot < k {
        assert tld[k - dot - 1] == s[k];
      }
    }
  }

  lemma PlainIsPattern(s: string)
    requires PlainEmail(s)
    ensures MatchesEmailPattern(s)
  {
    var at :|
      && 0 < at < |s| && s[at] == '@'
      && (forall k :: 0 <= k < |s| && s[k] == '@' ==> k == at)
      && exists dot :: at + 1 < dot < |s| - 1 && s[dot] == '.';
    var dot :| at + 1 < dot < |s| - 1 && s[dot] == '.';
    var user, host, tld := s[..at], s[at + 1..dot], s[dot + 1..];
    assert NoSpaceNoAt(user) by {
      forall k | 0 <= k < |user| ensures !IsJsSpace(user[k]) && user[k] != '@' {
        assert user[k] == s[k];
      }
    }
    assert NoSpaceNoAt(host) by {
      forall k | 0 <= k < |host| ensures !IsJsSpace(host[k]) && host[k] != '@' {
        assert host[k] == s[at + 1 + k];
      }
    }
    assert NoSpaceNoAt(tld) by {
      forall k | 0 <= k < |tld| ensures !IsJsSpace(tld[k]) && tld[k] != '@' {
        assert tld[k] == s[dot + 1 + k];
      }
    }
  }

  /** Two addresses the pattern accepts: the simplest, and one with a dot
      before the '@' and two after it. */
  lemma AcceptedEmails()
    ensures ValidateEmail("a@b.c").None?
    ensures ValidateEmail("x.y@b.c.d").None?
  {
    var a := "a@b.c";
    assert a[1] == '@' && a[3] == '.';
    assert NoSpaceNoAt(a[..1]) && NoSpaceNoAt(a[2..3]) && NoSpaceNoAt(a[4..]);
    var e := "x.y@b.c.d";
    assert e[3] == '@' && e[5] == '.';
    assert e[..3] == "x.y" && e[4..5] == "b" && e[6..] == "c.d";
    assert NoSpaceNoAt(e[..3]) && NoSpaceNoAt(e[4..5]) && NoSpaceNoAt(e[6..]);
  }

  /** Addresses the pattern rejects: two '@', nothing before the '@', no
      dot after the '@', a dot last, a space inside. */
  lemma RejectedEmails()
    ensures ValidateEmail("a@b@c.d") == Some(EmailMessage)
    ensures ValidateEmail("@b.c") == Some(EmailMessage)
    ensures ValidateEmail("a@bc") == Some(EmailMessage)
    ensures ValidateEmail("a@b.") == Some(EmailMessage)
    ensures ValidateEmail("a b@c.d") == Some(EmailMessage)
  {
    TwoAts("a@b@c.d");
    NoLeadingAt("@b.c");
    NoDotAfterAt("a@bc");
    NoDotAfterAt("a@b.");
    SpaceInside("a b@c.d");
  }

  lemma TwoAts(s: string)
    requires s == "a@b@c.d"
    ensures !MatchesEmailPattern(s)
  {
    EmailPatternIff(s);
    assert s[1] == '@' && s[3] == '@';
  }

  lemma NoLeadingAt(s: string)
    requires s == "@b.c"
    ensures !MatchesEmailPattern(s)
  {
    EmailPatternIff(s);
    assert s[0] == '@';
    assert forall k :: 0 < k < |s| ==> s[k] != '@';
  }

  lemma NoDotAfterAt(s: string)
    requires s == "a@bc" || s == "a@b."
    ensures !MatchesEmailPattern(s)
  {
    EmailPatternIff(s);
    assert forall k :: 2 < k < |s| - 1 ==> s[k] != '.';
  }

  lemma SpaceInside(s: string)
    requires s == "a b@c.d"
    ensures !MatchesEmailPattern(s)
  {
    EmailPatternIff(s);
    assert IsJsSpace(s[1]);
  }

  /** `s.length`: the number of UTF-16 code units, two for a character
      outside the Basic Multilingual Plane. */
  function Utf16Length(s: string): (n: nat)
    ensures |s| <= n <= 2 * |s|
  {
    if s == [] then 0 else Utf16Length(s[..|s| - 1]) + (if s[|s| - 1] as int >= 0x10000 then 2 else 1)
  }

  /** validatePassword: null exactly when the length is at least 6. */
  function ValidatePassword(password: string): (r: Option<string>)
    ensures r.None? <==> Utf16Length(password) >= MinPasswordLength
    ensures r.Some? ==> r.value == PasswordMessage
  {
    if Utf16Length(password) >= MinPasswordLength then None else Some(PasswordMessage)
  }

  /** Six characters always pass; three characters outside the Basic
      Multilingual Plane pass too, because each counts twice. */
  lemma PasswordLength(password: string)
    ensures |password| >= MinPasswordLength ==> ValidatePassword(password).None?
    ensures |password| < 3 ==> ValidatePassword(password) == Some(PasswordMessage)
    ensures ValidatePassword("\U{1F4DA}\U{1F4DA}\U{1F4DA}").None?
  {
    var books := "\U{1F4DA}\U{1F4DA}\U{1F4DA}";
    assert books[..2][..1] == books[..1];
    assert books[..|books| - 1] == books[..2];
    assert Utf16Length(books[..1]) == 2 by {
      assert books[..1][..0] == [];
    }
  }
}
