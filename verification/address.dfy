/** `parseAddressComponents` of the property details view: the city, state and
    ZIP code read out of a one-line US address such as "1 Main St, Austin, TX 78701".
    The three regular expressions it uses are written out by hand here, each with
    its backtracking resolved, for the regex semantics JavaScript gives them
    under the `i` flag and without the `u` flag:
      - `[A-Z]` then matches the 52 ASCII letters, and nothing else;
      - `\s` matches JavaScript whitespace, `\d` the ASCII digits;
      - `.` matches every character except a line terminator. */
module AddressParts {
  import opened Wrappers
  import opened JsText
  import opened JsValues

  /** The object the parser returns; `None` stands for `null`. */
  datatype Components = Components(city: Option<string>, state: Option<string>, postalCode: Option<string>)

  const NoComponents := Components(None, None, None)

  /** What the state/ZIP part of a pattern captured: the two letters as written,
      and the ZIP code when the optional group took part. */
  datatype StateZipMatch = StateZipMatch(state: string, zip: Option<string>)

  predicate AllWhitespace(s: string) { forall i :: 0 <= i < |s| ==> IsWhitespace(s[i]) }

  predicate IsStateCode(s: string) { |s| == 2 && 'A' <= s[0] <= 'Z' && 'A' <= s[1] <= 'Z' }

  /** `\d{5}(?:-\d{4})?` matching all of `z`. */
  predicate IsZip(z: string) {
    (|z| == 5 && AllDigits(z)) || (|z| == 10 && AllDigits(z[..5]) && z[5] == '-' && AllDigits(z[6..]))
  }

  /** The text the ZIP group matched: empty when it did not take part. */
  function ZipText(zip: Option<string>): string {
    match zip
    case Some(z) => z
    case None => ""
  }

  /** `s || null` for a string. */
  function NonEmpty(s: string): (r: Option<string>)
    ensures r.Some? <==> s != ""
    ensures r.Some? ==> r.value == s
  {
    if s == "" then None else Some(s)
  }

  lemma DigitIsNotWhitespace(c: char)
    requires IsDigit(c)
    ensures !IsWhitespace(c)
  {
  }

  lemma LetterIsNotWhitespace(c: char)
    requires IsAsciiLetter(c)
    ensures !IsWhitespace(c) && IsWordChar(c)
  {
  }

  lemma LineTerminatorIsWhitespace(c: char)
    ensures IsLineTerminator(c) ==> IsWhitespace(c)
  {
  }

  /** Stripping a whitespace run off the front of `w + z` leaves `z` when `z` does not start with whitespace. */
  lemma {:induction false} TrimStartWhitespace(w: string, z: string)
    requires AllWhitespace(w)
    requires z == [] || !IsWhitespace(z[0])
    ensures TrimStart(w + z) == z
    decreases |w|
  {
    if w != [] {
      assert (w + z)[1..] == w[1..] + z;
      TrimStartWhitespace(w[1..], z);
    }
  }

  // ---------------------------------------------------------------------------
  // the state/ZIP tail: `([A-Z]{2})\s*(\d{5}(?:-\d{4})?)?$`

  /** The tail pattern anchored at the start of `u` and at its end. The greedy `\s*`
      takes the whole whitespace run, and what follows must be the ZIP code or nothing:
      giving back whitespace would leave a space where a digit or the end is needed. */
  function StateZip(u: string): (r: Option<StateZipMatch>)
    ensures r.Some? ==> |u| >= 2 && IsAsciiLetter(u[0]) && IsAsciiLetter(u[1]) && r.value.state == u[..2]
    ensures r.Some? ==> r.value.zip.None? || IsZip(r.value.zip.value)
  {
    if |u| >= 2 && IsAsciiLetter(u[0]) && IsAsciiLetter(u[1]) then
      var rest := TrimStart(u[2..]);
      if rest == [] then Some(StateZipMatch(u[..2], None))
      else if IsZip(rest) then Some(StateZipMatch(u[..2], Some(rest)))
      else None
    else None
  }

  /** Whatever the tail pattern accepts spells out its groups: the two letters, a run of
      whitespace, then the ZIP code if any. */
  lemma StateZipSpells(u: string)
    requires StateZip(u).Some?
    ensures var z := ZipText(StateZip(u).value.zip);
      2 + |z| <= |u| && u[|u| - |z|..] == z && AllWhitespace(u[2..|u| - |z|])
  {
    var rest := TrimStart(u[2..]);
    assert u[2..][|u[2..]| - |rest|..] == u[|u| - |rest|..];
    var w := u[2..|u| - |rest|];
    forall j | 0 <= j < |w|
      ensures IsWhitespace(w[j])
    {
      assert w[j] == u[2..][j];
    }
  }

  /** Every string of the tail's shape is accepted, and the groups are its pieces. */
  lemma StateZipAccepts(st: string, w: string, z: string)
    requires |st| == 2 && IsAsciiLetter(st[0]) && IsAsciiLetter(st[1])
    requires AllWhitespace(w)
    requires z == "" || IsZip(z)
    ensures StateZip(st + w + z) == Some(StateZipMatch(st, if z == "" then None else Some(z)))
  {
    var u := st + w + z;
    assert u[..2] == st;
    assert u[2..] == w + z;
    if z != "" {
      DigitIsNotWhitespace(z[0]);
    }
    TrimStartWhitespace(w, z);
  }

  /** `^([A-Z]{2})$`, the pattern the three-part branch tries second. */
  predicate StateOnly(u: string) {
    |u| == 2 && IsAsciiLetter(u[0]) && IsAsciiLetter(u[1])
  }

  /** The second pattern of the three-part branch can never decide anything: whatever it
      accepts, the first pattern has already accepted with the same state and no ZIP. */
  lemma StateOnlyBranchIsDead(u: string)
    requires StateOnly(u)
    ensures StateZip(u) == Some(StateZipMatch(u, None))
  {
    assert u == u + "" + "";
    StateZipAccepts(u, "", "");
  }

  // ---------------------------------------------------------------------------
  // the two-part pattern: `^(.+?)\s+([A-Z]{2})\s*(\d{5}(?:-\d{4})?)?$`

  /** What must follow the city: a non-empty whitespace run, then the state/ZIP tail.
      The greedy `\s+` takes the whole run; a shorter run leaves a space where a letter is needed. */
  function CityTail(t: string): (r: Option<StateZipMatch>)
    ensures r.Some? ==> |t| > 0 && IsWhitespace(t[0])
  {
    if |t| > 0 && IsWhitespace(t[0]) then StateZip(TrimStart(t)) else None
  }

  predicate NoLineTerminator(s: string) { forall i :: 0 <= i < |s| ==> !IsLineTerminator(s[i]) }

  /** A lazy `(.+?)` over precomputed facts about one string: `fits[k]` says that a group of
      length `k` may be followed by the rest of the pattern, `blocked[j]` that character `j` is
      one `.` cannot match. The group grows one character at a time from length `k`, and a
      blocked character ends the search. */
  function LazyEnd(fits: seq<bool>, blocked: seq<bool>, k: nat): (r: Option<nat>)
    requires 1 <= k && |fits| == |blocked| + 1
    ensures r.Some? ==> k <= r.value < |fits| && fits[r.value]
    decreases |fits| - k
  {
    if k >= |fits| || blocked[k - 1] then None
    else if fits[k] then Some(k)
    else LazyEnd(fits, blocked, k + 1)
  }

  /** The lazy search stops at the shortest group that fits, and no character of the group is blocked. */
  lemma {:induction false} LazyEndIsShortest(fits: seq<bool>, blocked: seq<bool>, k: nat)
    requires 1 <= k && |fits| == |blocked| + 1
    ensures LazyEnd(fits, blocked, k).Some? ==>
      var e := LazyEnd(fits, blocked, k).value;
      (forall j :: k <= j < e ==> !fits[j]) && (forall j :: k - 1 <= j < e ==> !blocked[j])
    decreases |fits| - k
  {
    if k < |fits| && !blocked[k - 1] && !fits[k] {
      LazyEndIsShortest(fits, blocked, k + 1);
    }
  }

  /** Lengths that neither fit nor end in a blocked character are stepped over. */
  lemma {:induction false} LazyEndSkips(fits: seq<bool>, blocked: seq<bool>, k: nat, n: nat)
    requires 1 <= k <= n < |fits| && |fits| == |blocked| + 1
    requires forall j :: k <= j < n ==> !fits[j]
    requires forall j :: k - 1 <= j < n - 1 ==> !blocked[j]
    ensures LazyEnd(fits, blocked, k) == LazyEnd(fits, blocked, n)
    decreases n - k
  {
    if k < n {
      LazyEndSkips(fits, blocked, k + 1, n);
    }
  }

  /** For every length `k`, whether the rest of the two-part pattern matches after `s[..k]`. */
  function CityFits(s: string): (fits: seq<bool>)
    ensures |fits| == |s| + 1
  {
    seq(|s| + 1, k requires 0 <= k <= |s| => CityTail(s[k..]).Some?)
  }

  /** For every position, whether `.` refuses the character there. */
  function LineBreaks(s: string): (blocked: seq<bool>)
    ensures |blocked| == |s|
  {
    seq(|s|, j requires 0 <= j < |s| => IsLineTerminator(s[j]))
  }

  /** The length of the lazy `(.+?)` group: the shortest non-empty prefix of `s` free of line
      terminators and followed by a `CityTail`. */
  function CityEnd(s: string): (r: Option<nat>)
    ensures r.Some? ==> 1 <= r.value <= |s| && CityTail(s[r.value..]).Some?
  {
    var r := LazyEnd(CityFits(s), LineBreaks(s), 1);
    if r.Some? then
      assert CityFits(s)[r.value];
      r
    else r
  }

  /** The city group is the shortest that works, and `.` can match all of it. */
  lemma CityEndIsShortest(s: string)
    requires CityEnd(s).Some?
    ensures NoLineTerminator(s[..CityEnd(s).value])
    ensures forall j :: 1 <= j < CityEnd(s).value ==> CityTail(s[j..]).None?
  {
    var fits, blocked := CityFits(s), LineBreaks(s);
    LazyEndIsShortest(fits, blocked, 1);
    var e := CityEnd(s).value;
    forall j | 1 <= j < e
      ensures CityTail(s[j..]).None?
    {
      assert !fits[j];
    }
    forall i | 0 <= i < e
      ensures !IsLineTerminator(s[..e][i])
    {
      assert !blocked[i];
    }
  }

  /** The two-part pattern on a trimmed part: the city is the captured prefix, trimmed. */
  function CityStateZip(s: string): (r: Option<Components>)
    ensures r.Some? ==> r.value.state.Some? && IsStateCode(r.value.state.value)
    ensures r.Some? ==> r.value.postalCode.None? || IsZip(r.value.postalCode.value)
  {
    match CityEnd(s)
    case None => None
    case Some(k) =>
      var m := CityTail(s[k..]).value;
      Some(Components(NonEmpty(Trim(s[..k])), Some(UpperAscii(m.state)), m.zip))
  }

  // ---------------------------------------------------------------------------
  // the fallback: `\b([A-Z]{2})\s+(\d{5}(?:-\d{4})?)\b` anywhere in the string

  /** The length of the whitespace run at the start of `t`. */
  function WhitespaceRun(t: string): (n: nat)
    ensures n <= |t| && AllWhitespace(t[..n])
    ensures n == |t| || !IsWhitespace(t[n])
  {
    var r := TrimStart(t);
    assert t[|t| - |r|..] == r;
    |t| - |r|
  }

  /** The fallback pattern tried at position `i`. The `\b` before the letters holds when the
      character before them is not a word character. After the 5 digits the greedy optional
      `-dddd` is kept when the closing `\b` holds after it, and otherwise given back, leaving
      `\b` to be tested after the 5 digits alone. */
  function FallbackAt(s: string, i: nat): (r: Option<StateZipMatch>)
    requires i <= |s|
    ensures r.Some? ==> i + 2 <= |s| && IsAsciiLetter(s[i]) && IsAsciiLetter(s[i + 1]) && r.value.state == s[i..i + 2]
    ensures r.Some? ==> i == 0 || !IsWordChar(s[i - 1])
    ensures r.Some? ==> r.value.zip.Some? && IsZip(r.value.zip.value)
  {
    if i + 2 <= |s| && (i == 0 || !IsWordChar(s[i - 1])) && IsAsciiLetter(s[i]) && IsAsciiLetter(s[i + 1]) then
      var p := i + 2 + WhitespaceRun(s[i + 2..]);
      if p > i + 2 && p + 5 <= |s| && AllDigits(s[p..p + 5]) then
        if p + 10 <= |s| && s[p + 5] == '-' && AllDigits(s[p + 6..p + 10]) && (p + 10 == |s| || !IsWordChar(s[p + 10])) then
          LongZipOfSlice(s, p);
          Some(StateZipMatch(s[i..i + 2], Some(s[p..p + 10])))
        else if p + 5 == |s| || !IsWordChar(s[p + 5]) then
          Some(StateZipMatch(s[i..i + 2], Some(s[p..p + 5])))
        else None
      else None
    else None
  }

  lemma LongZipOfSlice(s: string, p: nat)
    requires p + 10 <= |s| && AllDigits(s[p..p + 5]) && s[p + 5] == '-' && AllDigits(s[p + 6..p + 10])
    ensures IsZip(s[p..p + 10])
  {
    var z := s[p..p + 10];
    assert z[..5] == s[p..p + 5];
    assert z[6..] == s[p + 6..p + 10];
  }

  /** The index of the first `Some` in `xs` at or after `i`: how a regular expression without
      the `g` flag reports the leftmost of the positions where it matches. */
  function FirstSome<T>(xs: seq<Option<T>>, i: nat): (r: Option<nat>)
    requires i <= |xs|
    ensures r.Some? ==> i <= r.value < |xs| && xs[r.value].Some?
    decreases |xs| - i
  {
    if i == |xs| then None
    else if xs[i].Some? then Some(i)
    else FirstSome(xs, i + 1)
  }

  /** `FirstSome` finds the leftmost `Some`, and finds nothing only when there is none. */
  lemma {:induction false} FirstSomeIsLeftmost<T>(xs: seq<Option<T>>, i: nat)
    requires i <= |xs|
    ensures FirstSome(xs, i).Some? ==> forall j :: i <= j < FirstSome(xs, i).value ==> xs[j].None?
    ensures FirstSome(xs, i).None? ==> forall j :: i <= j < |xs| ==> xs[j].None?
    decreases |xs| - i
  {
    if i < |xs| && xs[i].None? {
      FirstSomeIsLeftmost(xs, i + 1);
    }
  }

  /** The outcome of the fallback pattern at every start position, the end included. */
  function FallbackMatches(s: string): (ms: seq<Option<StateZipMatch>>)
    ensures |ms| == |s| + 1
  {
    seq(|s| + 1, i requires 0 <= i <= |s| => FallbackAt(s, i))
  }

  /** `s.match(stateZipPattern)`: the match at the leftmost position where there is one. */
  function Fallback(s: string): (r: Option<StateZipMatch>)
    ensures r.Some? ==> |r.value.state| == 2 && IsAsciiLetter(r.value.state[0]) && IsAsciiLetter(r.value.state[1])
    ensures r.Some? ==> r.value.zip.Some? && IsZip(r.value.zip.value)
  {
    var ms := FallbackMatches(s);
    match FirstSome(ms, 0)
    case Some(i) => ms[i]
    case None => None
  }

  /** The fallback reports a match exactly when the pattern matches somewhere, and then it is
      the match at the leftmost such position. */
  lemma FallbackIsLeftmost(s: string)
    ensures Fallback(s).None? <==> forall i :: 0 <= i <= |s| ==> FallbackAt(s, i).None?
    ensures Fallback(s).Some? ==>
      exists i :: 0 <= i <= |s| && Fallback(s) == FallbackAt(s, i) && (forall j :: 0 <= j < i ==> FallbackAt(s, j).None?)
  {
    var ms := FallbackMatches(s);
    FirstSomeIsLeftmost(ms, 0);
    match FirstSome(ms, 0)
    case Some(i) =>
      assert Fallback(s) == FallbackAt(s, i);
      assert forall j :: 0 <= j < i ==> FallbackAt(s, j) == ms[j];
    case None =>
      assert forall j :: 0 <= j <= |s| ==> FallbackAt(s, j) == ms[j];
  }

  // ---------------------------------------------------------------------------
  // parseAddressComponents

  /** `addressString.split(',').map(p => p.trim())`. */
  function CommaParts(a: string): (parts: seq<string>)
    ensures |parts| >= 1
  {
    var pieces := Split(a, ",");
    seq(|pieces|, i requires 0 <= i < |pieces| => Trim(pieces[i]))
  }

  /** The branch for three or more parts: the third part, trimmed, against the state/ZIP
      pattern, the second part as the city. */
  function ThreeParts(parts: seq<string>): (r: Option<Components>)
    ensures r.Some? ==> |parts| >= 3 && r.value.city == NonEmpty(parts[1])
    ensures r.Some? ==> r.value.state.Some? && IsStateCode(r.value.state.value)
    ensures r.Some? ==> r.value.postalCode.None? || IsZip(r.value.postalCode.value)
  {
    if |parts| >= 3 then
      match StateZip(Trim(parts[2]))
      case Some(m) => Some(Components(NonEmpty(parts[1]), Some(UpperAscii(m.state)), m.zip))
      case None => None
    else None
  }

  /** The branch for exactly two parts: the second part, trimmed, against the two-part pattern. */
  function TwoParts(parts: seq<string>): (r: Option<Components>)
    ensures r.Some? ==> |parts| == 2
    ensures r.Some? ==> r.value.state.Some? && IsStateCode(r.value.state.value)
    ensures r.Some? ==> r.value.postalCode.None? || IsZip(r.value.postalCode.value)
  {
    if |parts| == 2 then CityStateZip(Trim(parts[1])) else None
  }

  /** `parseAddressComponents` on a string. With three or more comma-separated parts the
      third, trimmed, must be a state and optional ZIP, and the city is the second part.
      With exactly two, the second must read "city state [zip]". When that fails, or with
      one part, the state and ZIP are looked for anywhere in the original string. */
  function ParseAddress(a: string): (r: Components)
    ensures a == "" ==> r == NoComponents
    ensures r.state.Some? ==> IsStateCode(r.state.value)
    ensures r.postalCode.Some? ==> IsZip(r.postalCode.value) && r.state.Some?
    ensures r.city.Some? ==> r.city.value != "" && r.state.Some?
  {
    if a == "" then NoComponents
    else
      var parts := CommaParts(a);
      match ThreeParts(parts)
      case Some(c) => c
      case None =>
        match TwoParts(parts)
        case Some(c) => c
        case None =>
          match Fallback(a)
          case Some(m) => Components(None, Some(UpperAscii(m.state)), m.zip)
          case None => NoComponents
  }

  /** The argument as the callers pass it: a falsy value gives all nulls, a string is parsed,
      and any other value makes `.split` throw. */
  function ParseAddressValue(v: Value): (r: Result<Components, string>)
    ensures !Truthy(v) ==> r == Ok(NoComponents)
    ensures r.Ok? <==> !Truthy(v) || v.Str?
    ensures v.Str? ==> r == Ok(ParseAddress(v.s))
  {
    if !Truthy(v) then Ok(NoComponents)
    else if v.Str? then Ok(ParseAddress(v.s))
    else Err("TypeError")
  }

  /** Only the third part decides the three-part branch: the street and any parts after the
      third are never looked at. */
  lemma ThreePartsDecide(a: string, c: Components)
    requires a != "" && ThreeParts(CommaParts(a)) == Some(c)
    ensures ParseAddress(a) == c
  {
  }

  // ---------------------------------------------------------------------------
  // what the parser recovers from well-formed addresses

  predicate NoComma(s: string) { forall i :: 0 <= i < |s| ==> s[i] != ',' }

  lemma NoCommaAppend(a: string, b: string)
    requires NoComma(a) && NoComma(b)
    ensures NoComma(a + b)
  {
    assert forall i :: 0 <= i < |a + b| ==> (a + b)[i] == (if i < |a| then a[i] else b[i - |a|]);
  }

  /** Splitting on "," cuts off a comma-free first piece at the first comma. */
  lemma {:induction false} SplitAtFirstComma(a: string, rest: string)
    requires NoComma(a)
    ensures Split(a + "," + rest, ",") == [a] + Split(rest, ",")
    decreases |a|
  {
    var s := a + "," + rest;
    if a == [] {
      assert s == "," + rest;
      assert s[..1] == ",";
      assert s[1..] == rest;
    } else {
      assert s[0] == a[0] && s[..1] == [s[0]];
      assert s[1..] == a[1..] + "," + rest;
      SplitAtFirstComma(a[1..], rest);
      assert [a[0]] + a[1..] == a;
    }
  }

  /** A comma-free string is a single piece. */
  lemma {:induction false} SplitNoComma(a: string)
    requires NoComma(a)
    ensures Split(a, ",") == [a]
    decreases |a|
  {
    if a != [] {
      assert a[..1] == [a[0]];
      SplitNoComma(a[1..]);
      assert [a[0]] + a[1..] == a;
    }
  }

  predicate Trimmed(s: string) {
    s != [] && !IsWhitespace(s[0]) && !IsWhitespace(s[|s| - 1])
  }

  lemma TrimAfterSpace(s: string)
    requires Trimmed(s)
    ensures Trim(" " + s) == s && Trim(s) == s
  {
    assert (" " + s)[1..] == s;
  }

  /** `CommaParts` trims the pieces of the split one by one. */
  lemma CommaPartIs(a: string, pieces: seq<string>, i: nat, v: string)
    requires Split(a, ",") == pieces && i < |pieces| && Trim(pieces[i]) == v
    ensures |CommaParts(a)| == |pieces| && CommaParts(a)[i] == v
  {
  }

  lemma SplitOfTwoPieces(x: string, y: string)
    requires NoComma(x) && NoComma(y)
    ensures Split(x + "," + y, ",") == [x, y]
  {
    SplitAtFirstComma(x, y);
    SplitNoComma(y);
  }

  lemma SplitOfThree(street: string, city: string, tail: string)
    requires NoComma(street) && NoComma(city) && NoComma(tail)
    ensures Split(street + ", " + city + ", " + tail, ",") == [street, " " + city, " " + tail]
  {
    var c1, t1 := " " + city, " " + tail;
    CommaSpace(street, city);
    CommaSpace(street + ", " + city, tail);
    Regroup(street, c1, t1);
    NoCommaAppend(" ", city);
    NoCommaAppend(" ", tail);
    SplitOfTwoPieces(c1, t1);
    SplitAtFirstComma(street, c1 + "," + t1);
  }

  lemma CommaSpace(a: string, b: string)
    ensures a + ", " + b == a + "," + (" " + b)
  {
  }

  lemma Regroup(a: string, b: string, c: string)
    ensures a + "," + b + "," + c == a + "," + (b + "," + c)
  {
  }

  lemma SplitOfTwo(street: string, rest: string)
    requires NoComma(street) && NoComma(rest)
    ensures Split(street + ", " + rest, ",") == [street, " " + rest]
  {
    NoCommaAppend(" ", rest);
    assert street + ", " + rest == street + "," + (" " + rest);
    SplitOfTwoPieces(street, " " + rest);
  }

  /** Three comma-separated parts, each after ", ", trim back to themselves. */
  lemma CommaPartsOfThree(street: string, city: string, tail: string)
    requires NoComma(street) && NoComma(city) && NoComma(tail)
    requires Trimmed(city) && Trimmed(tail)
    ensures var parts := CommaParts(street + ", " + city + ", " + tail);
      |parts| == 3 && parts[1] == city && parts[2] == tail
  {
    SplitOfThree(street, city, tail);
    PartsOfThree(street + ", " + city + ", " + tail, street, city, tail);
  }

  lemma PartsOfThree(a: string, street: string, city: string, tail: string)
    requires Trimmed(city) && Trimmed(tail)
    requires Split(a, ",") == [street, " " + city, " " + tail]
    ensures var parts := CommaParts(a);
      |parts| == 3 && parts[1] == city && parts[2] == tail
  {
    var pieces := [street, " " + city, " " + tail];
    TrimAfterSpace(city);
    CommaPartIs(a, pieces, 1, city);
    TrimAfterSpace(tail);
    CommaPartIs(a, pieces, 2, tail);
  }

  /** Two comma-separated parts, the second after ", ", trim back to themselves. */
  lemma CommaPartsOfTwo(street: string, rest: string)
    requires NoComma(street) && NoComma(rest) && Trimmed(rest)
    ensures var parts := CommaParts(street + ", " + rest);
      |parts| == 2 && parts[1] == rest
  {
    SplitOfTwo(street, rest);
    PartsOfTwo(street + ", " + rest, street, rest);
  }

  lemma PartsOfTwo(a: string, street: string, rest: string)
    requires Trimmed(rest)
    requires Split(a, ",") == [street, " " + rest]
    ensures var parts := CommaParts(a);
      |parts| == 2 && parts[1] == rest
  {
    TrimAfterSpace(rest);
    CommaPartIs(a, [street, " " + rest], 1, rest);
  }

  /** "ST zip" has no comma, and starts and ends with something other than whitespace. */
  lemma StateZipText(st: string, zip: string)
    requires |st| == 2 && IsAsciiLetter(st[0]) && IsAsciiLetter(st[1])
    requires IsZip(zip)
    ensures NoComma(st + " " + zip) && Trimmed(st + " " + zip)
  {
    var t := st + " " + zip;
    LetterIsNotWhitespace(st[0]);
    DigitIsNotWhitespace(zip[|zip| - 1]);
    assert t[|t| - 1] == zip[|zip| - 1];
    assert NoComma(st) && NoComma(" ");
    assert NoComma(zip) by {
      assert forall i :: 0 <= i < |zip| ==> IsDigit(zip[i]) || zip[i] == '-' by {
        if |zip| == 10 {
          assert forall i :: 0 <= i < 5 ==> zip[i] == zip[..5][i];
          assert forall i :: 6 <= i < 10 ==> zip[i] == zip[6..][i - 6];
        }
      }
    }
    NoCommaAppend(st, " ");
    NoCommaAppend(st + " ", zip);
  }

  /** The three-part branch on parts whose third part is a trimmed "ST zip". */
  lemma ThreePartsAccept(parts: seq<string>, st: string, zip: string)
    requires |parts| >= 3 && parts[1] != "" && Trim(parts[2]) == parts[2]
    requires StateZip(parts[2]) == Some(StateZipMatch(st, Some(zip)))
    ensures ThreeParts(parts) == Some(Components(Some(parts[1]), Some(UpperAscii(st)), Some(zip)))
  {
  }

  /** A well-formed "street, City, ST zip" address gives back its city, its state
      upper-cased and its ZIP code, whatever the street says (short of a comma). */
  lemma ParseStreetCityStateZip(street: string, city: string, st: string, zip: string)
    requires NoComma(street) && NoComma(city) && Trimmed(city)
    requires |st| == 2 && IsAsciiLetter(st[0]) && IsAsciiLetter(st[1])
    requires IsZip(zip)
    ensures ParseAddress(street + ", " + city + ", " + st + " " + zip)
         == Components(Some(city), Some(UpperAscii(st)), Some(zip))
  {
    var a := street + ", " + city + ", " + (st + " " + zip);
    assert street + ", " + city + ", " + st + " " + zip == a;
    ThreePartsOfStreetCityStateZip(street, city, st, zip);
    ThreePartsDecide(a, Components(Some(city), Some(UpperAscii(st)), Some(zip)));
  }

  lemma ThreePartsOfStreetCityStateZip(street: string, city: string, st: string, zip: string)
    requires NoComma(street) && NoComma(city) && Trimmed(city)
    requires |st| == 2 && IsAsciiLetter(st[0]) && IsAsciiLetter(st[1])
    requires IsZip(zip)
    ensures ThreeParts(CommaParts(street + ", " + city + ", " + (st + " " + zip)))
         == Some(Components(Some(city), Some(UpperAscii(st)), Some(zip)))
  {
    var tail := st + " " + zip;
    var a := street + ", " + city + ", " + tail;
    StateZipText(st, zip);
    CommaPartsOfThree(street, city, tail);
    TrimAfterSpace(tail);
    StateZipAccepts(st, " ", zip);
    ThreePartsAccept(CommaParts(a), st, zip);
  }

  /** The two-part branch decides whenever its pattern matches: with two parts the
      three-part branch has nothing to look at. */
  lemma TwoPartsDecide(a: string, c: Components)
    requires a != "" && TwoParts(CommaParts(a)) == Some(c)
    ensures ParseAddress(a) == c
  {
    assert |CommaParts(a)| == 2;
  }

  lemma CityTailAfterSpace(stZip: string)
    requires Trimmed(stZip)
    ensures CityTail(" " + stZip) == StateZip(stZip)
  {
    TrimStartWhitespace(" ", stZip);
  }

  /** No length inside a one-word city ends the city: what follows starts with a letter. */
  lemma InsideWordNoFit(s: string, w: nat, j: nat)
    requires 1 <= j < w <= |s| && !IsWhitespace(s[j])
    ensures !CityFits(s)[j]
  {
    assert s[j..][0] == s[j];
  }

  /** The city search stops right after a one-word city. */
  lemma CityWordEnds(city: string, stZip: string)
    requires city != "" && forall i :: 0 <= i < |city| ==> !IsWhitespace(city[i])
    requires Trimmed(stZip) && StateZip(stZip).Some?
    ensures CityEnd(city + " " + stZip) == Some(|city|)
  {
    var s := city + " " + stZip;
    var n := |city|;
    assert s[n..] == " " + stZip;
    assert forall j :: 0 <= j < n ==> s[j] == city[j];
    CityTailAfterSpace(stZip);
    CityEndAtWord(s, n);
  }

  /** A city of `n` non-blank characters followed by the tail ends the lazy search at `n`. */
  lemma CityEndAtWord(s: string, n: nat)
    requires 1 <= n <= |s| && forall j :: 0 <= j < n ==> !IsWhitespace(s[j])
    requires CityTail(s[n..]).Some?
    ensures CityEnd(s) == Some(n)
  {
    var fits, blocked := CityFits(s), LineBreaks(s);
    forall j | 1 <= j < n
      ensures !fits[j]
    {
      InsideWordNoFit(s, n, j);
    }
    forall j | 0 <= j < n
      ensures !blocked[j]
    {
      LineTerminatorIsWhitespace(s[j]);
    }
    LazyEndSkips(fits, blocked, 1, n);
    assert fits[n];
  }

  lemma TrimOfTrimmed(s: string)
    requires Trimmed(s)
    ensures Trim(s) == s
  {
  }

  /** The two-part pattern once the city search has stopped at `k`. */
  lemma CityStateZipAt(s: string, k: nat, m: StateZipMatch, city: string)
    requires 1 <= k <= |s| && CityEnd(s) == Some(k) && CityTail(s[k..]) == Some(m)
    requires Trim(s[..k]) == city
    ensures CityStateZip(s) == Some(Components(NonEmpty(city), Some(UpperAscii(m.state)), m.zip))
  {
  }

  /** The two-part pattern on "City ST zip" with a one-word city. */
  lemma CityStateZipOfWord(city: string, st: string, zip: string)
    requires city != "" && forall i :: 0 <= i < |city| ==> !IsWhitespace(city[i])
    requires |st| == 2 && IsAsciiLetter(st[0]) && IsAsciiLetter(st[1])
    requires IsZip(zip)
    ensures CityStateZip(city + " " + (st + " " + zip)) == Some(Components(Some(city), Some(UpperAscii(st)), Some(zip)))
  {
    var stZip := st + " " + zip;
    var s := city + " " + stZip;
    assert s[..|city|] == city;
    assert s[|city|..] == " " + stZip;
    StateZipText(st, zip);
    StateZipAccepts(st, " ", zip);
    CityWordEnds(city, stZip);
    CityTailAfterSpace(stZip);
    TrimOfTrimmed(city);
    CityStateZipAt(s, |city|, StateZipMatch(st, Some(zip)), city);
  }

  lemma TwoPartsAccept(parts: seq<string>, c: Components)
    requires |parts| == 2 && Trim(parts[1]) == parts[1] && CityStateZip(parts[1]) == Some(c)
    ensures TwoParts(parts) == Some(c)
  {
  }

  /** A well-formed "street, City ST zip" address with a one-word city gives back that city,
      the state upper-cased and the ZIP code. */
  lemma ParseStreetCityWordStateZip(street: string, city: string, st: string, zip: string)
    requires NoComma(street) && NoComma(city)
    requires city != "" && forall i :: 0 <= i < |city| ==> !IsWhitespace(city[i])
    requires |st| == 2 && IsAsciiLetter(st[0]) && IsAsciiLetter(st[1])
    requires IsZip(zip)
    ensures ParseAddress(street + ", " + city + " " + st + " " + zip)
         == Components(Some(city), Some(UpperAscii(st)), Some(zip))
  {
    var stZip := st + " " + zip;
    var s := city + " " + stZip;
    var a := street + ", " + s;
    assert street + ", " + city + " " + st + " " + zip == a;
    assert s[0] == city[0] && s[|s| - 1] == stZip[|stZip| - 1];
    StateZipText(st, zip);
    assert Trimmed(s);
    NoCommaAppend(city, " ");
    NoCommaAppend(city + " ", stZip);
    CommaPartsOfTwo(street, s);
    TrimOfTrimmed(s);
    CityStateZipOfWord(city, st, zip);
    TwoPartsAccept(CommaParts(a), Components(Some(city), Some(UpperAscii(st)), Some(zip)));
    TwoPartsDecide(a, Components(Some(city), Some(UpperAscii(st)), Some(zip)));
  }
}
