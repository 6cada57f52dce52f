/** The new-password form: the strength label shown for the password and the mismatch flag on
    the confirmation. Lengths are UTF-16 lengths, as `.length` counts them. */
module CreatePassword {
  import opened Wrappers
  import opened JsText

  datatype Strength = NoStrength | Weak | Medium | Strong

  /** The text of a strength (`""` for none). */
  function StrengthText(s: Strength): string {
    match s
    case NoStrength => ""
    case Weak => "Weak"
    case Medium => "Medium"
    case Strong => "Strong"
  }

  /** `getPasswordStrength`: none for an empty password, weak below 6 characters, medium below
      10, strong from 10 on. */
  function PasswordStrength(pwd: string): (r: Strength)
    ensures r == NoStrength <==> pwd == ""
    ensures r == Weak <==> pwd != "" && Utf16Length(pwd) < 6
    ensures r == Medium <==> 6 <= Utf16Length(pwd) < 10
    ensures r == Strong <==> Utf16Length(pwd) >= 10
  {
    if pwd == "" then NoStrength
    else if Utf16Length(pwd) < 6 then Weak
    else if Utf16Length(pwd) < 10 then Medium
    else Strong
  }

  function Rank(s: Strength): nat {
    match s
    case NoStrength => 0
    case Weak => 1
    case Medium => 2
    case Strong => 3
  }

  /** A longer password is never rated weaker. */
  lemma StrengthIsMonotone(a: string, b: string)
    requires Utf16Length(a) <= Utf16Length(b)
    ensures Rank(PasswordStrength(a)) <= Rank(PasswordStrength(b))
  {
  }

  /** `confirmPassword.length > 0 && createPassword !== confirmPassword`. */
  function PasswordsDoNotMatch(createPassword: string, confirmPassword: string): (r: bool)
    ensures r <==> confirmPassword != "" && createPassword != confirmPassword
  {
    Utf16Length(confirmPassword) > 0 && createPassword != confirmPassword
  }

  /** An empty confirmation never shows the mismatch, and a matching one never does. */
  lemma MismatchNeedsADifferentConfirmation(p: string, c: string)
    ensures c == "" || c == p ==> !PasswordsDoNotMatch(p, c)
    ensures PasswordsDoNotMatch(p, c) == PasswordsDoNotMatch(c, p) || p == "" || c == ""
  {
  }

  datatype Tone = Red | Orange | Green

  /** The strength label next to the field: shown only for a non-empty password, red when weak,
      orange when medium, green otherwise. */
  function StrengthLabel(pwd: string): (r: Option<(string, Tone)>)
    ensures r.None? <==> pwd == ""
    ensures r.Some? ==> r.value.0 == StrengthText(PasswordStrength(pwd))
    ensures r.Some? ==> (r.value.1 == Red <==> Utf16Length(pwd) < 6)
    ensures r.Some? ==> (r.value.1 == Green <==> Utf16Length(pwd) >= 10)
  {
    if pwd == "" then None
    else
      var s := PasswordStrength(pwd);
      Some((StrengthText(s), if s == Weak then Red else if s == Medium then Orange else Green))
  }
}
