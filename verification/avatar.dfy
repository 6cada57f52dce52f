/** The avatar helpers: the initial shown for a user and the colour picked for it. Upper-casing
    covers the ASCII letters. */
module Avatar {
  import opened Wrappers
  import opened JsText
  import opened JsValues

  /** The eight avatar colour classes, in palette order. */
  const AvatarColors: seq<string> := [
    "bg-red-500 text-white", "bg-blue-200 text-blue-600", "bg-green-500 text-white",
    "bg-purple-500 text-white", "bg-pink-500 text-white", "bg-indigo-500 text-white",
    "bg-yellow-500 text-black", "bg-teal-500 text-white"]

  const DefaultInitial: string := "U"

  /** `field && field.trim()`, then `field.trim().charAt(0).toUpperCase()`: the upper-cased
      first character of the trimmed text, `None` when it is missing or blank, and an error
      when a truthy non-text value is trimmed. */
  function InitialOf(field: Value): (r: Result<Option<string>, string>)
    ensures !Truthy(field) ==> r == Ok(None)
    ensures field.Str? ==> r.Ok?
    ensures field.Str? && Trim(field.s) != "" ==> r == Ok(Some([AsciiUpper(Trim(field.s)[0])]))
    ensures field.Str? && Trim(field.s) == "" ==> r == Ok(None)
    ensures field.Str? && Trim(field.s) != "" ==>
      (Utf16Length(r.value.value) == 1 <==> (Trim(field.s)[0] as int) < 0x1_0000)
    ensures Truthy(field) && !field.Str? ==> r.Err?
  {
    if !Truthy(field) then Ok(None)
    else if !field.Str? then Err("TypeError: trim is not a function")
    else
      var t := Trim(field.s);
      if t == "" then Ok(None) else Ok(Some([AsciiUpper(t[0])]))
  }

  /** `getUserInitial`: from the name when it is not blank, else from the e-mail, else "U". */
  function UserInitial(user: Value): (r: Result<string, string>)
    ensures r.Ok? ==> |r.value| == 1
    ensures r.Ok? ==> (Utf16Length(r.value) == 1 <==> (r.value[0] as int) < 0x1_0000)
    ensures InitialOf(Prop(user, "name")).Ok? && InitialOf(Prop(user, "name")).value.Some? ==>
      r == Ok(InitialOf(Prop(user, "name")).value.value)
    ensures InitialOf(Prop(user, "name")) == Ok(None) ==>
      r == match InitialOf(Prop(user, "email"))
           case Ok(Some(c)) => Ok(c)
           case Ok(None) => Ok(DefaultInitial)
           case Err(e) => Err(e)
  {
    match InitialOf(Prop(user, "name"))
    case Err(e) => Err(e)
    case Ok(Some(c)) => Ok(c)
    case Ok(None) =>
      match InitialOf(Prop(user, "email"))
      case Err(e) => Err(e)
      case Ok(Some(c)) => Ok(c)
      case Ok(None) => Ok(DefaultInitial)
  }

  /** A padded lower-case name gives its first letter in upper case, whatever the e-mail. */
  lemma PaddedNameInitial(user: Value)
    requires Prop(user, "name") == Str("  jane doe")
    ensures UserInitial(user) == Ok("J")
  {
    TrimOfPadded();
    assert AsciiUpper('j') == 'J';
    assert InitialOf(Str("  jane doe")) == Ok(Some("J"));
  }

  /** Without a name or e-mail (or without a user at all) the initial is "U". */
  lemma MissingNamesGiveDefault(user: Value)
    requires Nullish(Prop(user, "name")) && Nullish(Prop(user, "email"))
    ensures UserInitial(user) == Ok(DefaultInitial)
  {
  }

  /** A blank name falls through to the e-mail. */
  lemma BlankNameUsesEmail(user: Value, email: string)
    requires Prop(user, "name") == Str("   ") && Prop(user, "email") == Str(email) && Trim(email) != ""
    ensures UserInitial(user) == Ok([AsciiUpper(Trim(email)[0])])
  {
    assert Trim("   ") == "" by {
      assert forall i :: 0 <= i < |"   "| ==> IsWhitespace("   "[i]);
    }
  }

  lemma TrimOfPadded()
    ensures Trim("  jane doe")[0] == 'j'
  {
    assert TrimStart("  jane doe") == "jane doe" by {
      assert "  jane doe"[1..] == " jane doe";
      assert " jane doe"[1..] == "jane doe";
    }
    assert TrimEnd("jane doe") == "jane doe";
  }

  /** `getAvatarColor`: the first colour for an empty letter, else the colour at the letter's
      first UTF-16 code unit modulo eight. */
  function AvatarColor(letter: string): (r: string)
    ensures r in AvatarColors
    ensures letter == "" ==> r == AvatarColors[0]
    ensures letter != "" ==> r == AvatarColors[FirstCodeUnit(letter[0]) % |AvatarColors|]
  {
    if letter == "" then AvatarColors[0] else AvatarColors[FirstCodeUnit(letter[0]) % |AvatarColors|]
  }

  /** Only the first character decides the colour, and letters eight code points apart share
      one. */
  lemma ColorFollowsFirstCodeUnit(a: string, b: string)
    requires a != "" && b != "" && a[0] as int < 0x1_0000 && b[0] as int < 0x1_0000
    requires (a[0] as int - b[0] as int) % 8 == 0
    ensures AvatarColor(a) == AvatarColor(b)
  {
    var x, y := a[0] as int, b[0] as int;
    assert x % 8 == y % 8 by {
      assert x == y + (x - y);
      assert (x - y) == ((x - y) / 8) * 8;
    }
  }

  /** The default initial "U" (code 85) is drawn in indigo. */
  lemma DefaultInitialColor()
    ensures AvatarColor(DefaultInitial) == "bg-indigo-500 text-white"
  {
    assert FirstCodeUnit('U') == 85;
  }
}
