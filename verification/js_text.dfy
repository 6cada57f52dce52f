/** String primitives of the JavaScript runtime that the modelled code relies on:
    `trim`, `startsWith`, `split`/`join` with a string separator, ASCII case mapping,
    the `\s`, `\d` and `\w` character classes, decimal rendering of integers and the
    UTF-16 length of a string. Strings are `seq<char>` of Unicode scalar values. */
module JsText {

  /** The ECMAScript LineTerminator code points (what `.` in a regular expression refuses). */
  predicate IsLineTerminator(c: char) {
    var n := c as int;
    n == 0x0A || n == 0x0D || n == 0x2028 || n == 0x2029
  }

  /** ECMAScript WhiteSpace or LineTerminator: what `trim()` strips and what `\s` matches. */
  predicate IsWhitespace(c: char) {
    var n := c as int;
    if n <= 0x20 then n == 0x20 || 0x09 <= n <= 0x0D
    else 0xA0 <= n && IsWideWhitespace(n)
  }

  /** The whitespace code points from U+00A0 up. */
  predicate IsWideWhitespace(n: int) {
    || n == 0xA0 || n == 0xFEFF || n == 0x1680 || (0x2000 <= n <= 0x200A)
    || n == 0x2028 || n == 0x2029 || n == 0x202F || n == 0x205F || n == 0x3000
  }

  predicate IsDigit(c: char) { '0' <= c <= '9' }

  predicate IsAsciiLetter(c: char) { ('a' <= c <= 'z') || ('A' <= c <= 'Z') }

  predicate IsAsciiAlnum(c: char) { IsAsciiLetter(c) || IsDigit(c) }

  /** `\w` without the `u` flag: ASCII letters, digits and underscore. */
  predicate IsWordChar(c: char) { IsAsciiAlnum(c) || c == '_' }

  predicate AllDigits(s: string) { forall i :: 0 <= i < |s| ==> IsDigit(s[i]) }

  function AsciiUpper(c: char): (r: char)
    ensures IsAsciiLetter(c) ==> 'A' <= r <= 'Z'
    ensures !('a' <= c <= 'z') ==> r == c
  {
    if 'a' <= c <= 'z' then (c as int - 32) as char else c
  }

  function AsciiLower(c: char): (r: char)
    ensures IsAsciiLetter(c) ==> 'a' <= r <= 'z'
    ensures !('A' <= c <= 'Z') ==> r == c
  {
    if 'A' <= c <= 'Z' then (c as int + 32) as char else c
  }

  /** `toUpperCase()` restricted to the ASCII letters. */
  function UpperAscii(s: string): (r: string)
    ensures |r| == |s|
    ensures forall i :: 0 <= i < |s| ==> r[i] == AsciiUpper(s[i])
  {
    seq(|s|, i requires 0 <= i < |s| => AsciiUpper(s[i]))
  }

  /** `toLowerCase()` restricted to the ASCII letters. */
  function LowerAscii(s: string): (r: string)
    ensures |r| == |s|
    ensures forall i :: 0 <= i < |s| ==> r[i] == AsciiLower(s[i])
  {
    seq(|s|, i requires 0 <= i < |s| => AsciiLower(s[i]))
  }

  predicate StartsWith(s: string, prefix: string) {
    |prefix| <= |s| && s[..|prefix|] == prefix
  }

  function TrimStart(s: string): (r: string)
    ensures |r| <= |s| && r == s[|s| - |r|..]
    ensures r == [] || !IsWhitespace(r[0])
    ensures forall i :: 0 <= i < |s| - |r| ==> IsWhitespace(s[i])
  {
    if |s| > 0 && IsWhitespace(s[0]) then TrimStart(s[1..]) else s
  }

  function TrimEnd(s: string): (r: string)
    ensures |r| <= |s| && r == s[..|r|]
    ensures r == [] || !IsWhitespace(r[|r| - 1])
    ensures forall i :: |r| <= i < |s| ==> IsWhitespace(s[i])
  {
    if |s| > 0 && IsWhitespace(s[|s| - 1]) then TrimEnd(s[..|s| - 1]) else s
  }

  /** `trim()`: the longest infix with no whitespace at either end, everything cut being whitespace. */
  function Trim(s: string): (r: string)
    ensures |r| <= |s|
    ensures r == [] || (!IsWhitespace(r[0]) && !IsWhitespace(r[|r| - 1]))
    ensures r == [] <==> forall i :: 0 <= i < |s| ==> IsWhitespace(s[i])
  {
    TrimEnd(TrimStart(s))
  }

  /** The UTF-16 length (`.length`): code points above U+FFFF take two code units. */
  function Utf16Length(s: string): (n: nat)
    ensures |s| <= n <= 2 * |s|
  {
    if s == [] then 0 else (if s[0] as int >= 0x1_0000 then 2 else 1) + Utf16Length(s[1..])
  }

  /** The first UTF-16 code unit of `c` (`charCodeAt(0)` of a one-character string). */
  function FirstCodeUnit(c: char): (u: nat)
    ensures u < 0x1_0000
    ensures c as int < 0x1_0000 ==> u == c as int
  {
    if c as int < 0x1_0000 then c as int else 0xD800 + (c as int - 0x1_0000) / 0x400
  }

  // ---------------------------------------------------------------------------
  // split / join with a non-empty string separator

  predicate OccursAt(s: string, sep: string, i: int) {
    0 <= i && i + |sep| <= |s| && s[i..i + |sep|] == sep
  }

  predicate Contains(s: string, sep: string) {
    exists i | 0 <= i <= |s| :: OccursAt(s, sep, i)
  }

  /** `s.split(sep)`: cut at every leftmost, non-overlapping occurrence of `sep`. */
  function Split(s: string, sep: string): (r: seq<string>)
    requires |sep| > 0
    ensures |r| >= 1
    decreases |s|
  {
    if |s| < |sep| then [s]
    else if s[..|sep|] == sep then [""] + Split(s[|sep|..], sep)
    else
      var rest := Split(s[1..], sep);
      [[s[0]] + rest[0]] + rest[1..]
  }

  /** `parts.join(sep)`. */
  function Join(parts: seq<string>, sep: string): string
    decreases |parts|
  {
    if parts == [] then ""
    else if |parts| == 1 then parts[0]
    else parts[0] + sep + Join(parts[1..], sep)
  }

  function Init<T>(xs: seq<T>): seq<T>
    requires |xs| >= 1
  {
    xs[..|xs| - 1]
  }

  function Last<T>(xs: seq<T>): T
    requires |xs| >= 1
  {
    xs[|xs| - 1]
  }

  lemma SplitAtSeparator(s: string, sep: string)
    requires |sep| > 0 && |s| >= |sep| && s[..|sep|] == sep
    ensures Split(s, sep) == [""] + Split(s[|sep|..], sep)
  {
  }

  lemma SplitElsewhere(s: string, sep: string)
    requires |sep| > 0 && |s| >= |sep| && s[..|sep|] != sep
    ensures Split(s, sep) == [[s[0]] + Split(s[1..], sep)[0]] + Split(s[1..], sep)[1..]
  {
  }

  lemma JoinCons(p: string, tail: seq<string>, sep: string)
    requires |tail| >= 1
    ensures Join([p] + tail, sep) == p + sep + Join(tail, sep)
  {
    assert ([p] + tail)[1..] == tail;
  }

  predicate JoinsBack(s: string, sep: string)
    requires |sep| > 0
  {
    Join(Split(s, sep), sep) == s
  }

  lemma JoinAtSeparator(s: string, sep: string)
    requires |sep| > 0 && |s| >= |sep| && s[..|sep|] == sep
    requires JoinsBack(s[|sep|..], sep)
    ensures JoinsBack(s, sep)
  {
    SplitAtSeparator(s, sep);
    JoinCons("", Split(s[|sep|..], sep), sep);
    assert s == sep + s[|sep|..];
  }

  lemma JoinElsewhere(s: string, sep: string)
    requires |sep| > 0 && |s| >= |sep| && s[..|sep|] != sep
    requires JoinsBack(s[1..], sep)
    ensures JoinsBack(s, sep)
  {
    SplitElsewhere(s, sep);
    var rest := Split(s[1..], sep);
    if |rest| == 1 {
      assert Split(s, sep) == [[s[0]] + rest[0]];
      assert [s[0]] + s[1..] == s;
    } else {
      assert rest == [rest[0]] + rest[1..];
      JoinCons(rest[0], rest[1..], sep);
      JoinConsChar(s[0], rest[0], rest[1..], sep, s[1..]);
      assert [s[0]] + s[1..] == s;
    }
  }

  /** Putting a character in front of the first piece puts it in front of the joined text. */
  lemma JoinConsChar(c: char, r0: string, tail: seq<string>, sep: string, t: string)
    requires |tail| >= 1 && r0 + sep + Join(tail, sep) == t
    ensures Join([[c] + r0] + tail, sep) == [c] + t
  {
    JoinCons([c] + r0, tail, sep);
    ConsAssoc(c, r0, sep, Join(tail, sep));
  }

  lemma ConsAssoc(c: char, a: string, b: string, d: string)
    ensures ([c] + a) + b + d == [c] + (a + b + d)
  {
  }

  /** Splitting loses nothing: joining the pieces with the separator gives the text back. */
  lemma {:induction false} SplitJoin(s: string, sep: string)
    requires |sep| > 0
    ensures Join(Split(s, sep), sep) == s
    decreases |s|
  {
    if |s| < |sep| {
      assert Split(s, sep) == [s];
    } else if s[..|sep|] == sep {
      SplitJoin(s[|sep|..], sep);
      JoinAtSeparator(s, sep);
    } else {
      SplitJoin(s[1..], sep);
      JoinElsewhere(s, sep);
    }
  }

  lemma FirstPieceIsPrefix(s: string, sep: string)
    requires |sep| > 0
    ensures Split(s, sep)[0] <= s
  {
    var r := Split(s, sep);
    SplitJoin(s, sep);
    if |r| > 1 {
      assert r == [r[0]] + r[1..];
      JoinCons(r[0], r[1..], sep);
    }
  }

  predicate PiecesFree(r: seq<string>, sep: string) {
    forall k :: 0 <= k < |r| ==> !Contains(r[k], sep)
  }

  lemma ConsFree(c: char, r0: string, sep: string)
    requires |sep| > 0 && !Contains(r0, sep) && !StartsWith([c] + r0, sep)
    ensures !Contains([c] + r0, sep)
  {
    var p := [c] + r0;
    forall i | 0 <= i <= |p| ensures !OccursAt(p, sep, i) {
      if i > 0 && i + |sep| <= |p| {
        assert p[i..i + |sep|] == r0[i - 1..i - 1 + |sep|];
        assert !OccursAt(r0, sep, i - 1);
      }
    }
  }

  lemma ConsPrefixFree(s: string, r0: string, sep: string)
    requires |sep| > 0 && |s| >= |sep| && s[..|sep|] != sep
    requires r0 <= s[1..] && !Contains(r0, sep)
    ensures !Contains([s[0]] + r0, sep)
  {
    var p := [s[0]] + r0;
    assert p == s[..|p|];
    if |sep| <= |p| {
      assert p[..|sep|] == s[..|sep|];
    }
    ConsFree(s[0], r0, sep);
  }

  lemma FreeFirstPiece(s: string, sep: string)
    requires |sep| > 0 && |s| >= |sep| && s[..|sep|] != sep
    requires PiecesFree(Split(s[1..], sep), sep)
    ensures !Contains([s[0]] + Split(s[1..], sep)[0], sep)
  {
    var r := Split(s[1..], sep);
    assert !Contains(r[0], sep);
    FirstPieceIsPrefix(s[1..], sep);
    ConsPrefixFree(s, r[0], sep);
  }

  /** No piece of a split contains the separator. */
  lemma {:induction false} SplitPiecesAreFree(s: string, sep: string)
    requires |sep| > 0
    ensures PiecesFree(Split(s, sep), sep)
    decreases |s|
  {
    if |s| < |sep| {
      forall i | OccursAt(s, sep, i) ensures false {
      }
    } else if s[..|sep|] == sep {
      SplitAtSeparator(s, sep);
      SplitPiecesAreFree(s[|sep|..], sep);
      forall i | OccursAt("", sep, i) ensures false {
      }
    } else {
      SplitElsewhere(s, sep);
      SplitPiecesAreFree(s[1..], sep);
      FreeFirstPiece(s, sep);
    }
  }

  predicate AppendSplits(s: string, t: string, sep: string)
    requires |sep| > 0
  {
    Split(s + t, sep) == Init(Split(s, sep)) + Split(Last(Split(s, sep)) + t, sep)
  }

  lemma AppendAtSeparator(s: string, t: string, sep: string)
    requires |sep| > 0 && |s| >= |sep| && s[..|sep|] == sep
    requires AppendSplits(s[|sep|..], t, sep)
    ensures AppendSplits(s, t, sep)
  {
    var k := |sep|;
    assert (s + t)[..k] == sep;
    assert (s + t)[k..] == s[k..] + t;
    SplitAtSeparator(s, sep);
    SplitAtSeparator(s + t, sep);
    var r := Split(s[k..], sep);
    assert Init([""] + r) == [""] + Init(r);
    assert Last([""] + r) == Last(r);
  }

  lemma AppendElsewhere(s: string, t: string, sep: string)
    requires |sep| > 0 && |s| >= |sep| && s[..|sep|] != sep
    requires AppendSplits(s[1..], t, sep)
    ensures AppendSplits(s, t, sep)
  {
    var k := |sep|;
    assert (s + t)[..k] == s[..k];
    assert (s + t)[1..] == s[1..] + t;
    SplitElsewhere(s, sep);
    SplitElsewhere(s + t, sep);
    var r := Split(s[1..], sep);
    if |r| == 1 {
      SplitJoin(s[1..], sep);
      assert [s[0]] + r[0] == s;
      assert Split(s, sep) == [s];
    } else {
      ConsPieceAppend(s[0], r, Split(s[1..] + t, sep), Split(Last(r) + t, sep));
    }
  }

  /** The list algebra behind `AppendElsewhere`: a character glued to the first piece
      commutes with splitting the rest. */
  lemma ConsPieceAppend(c: char, r: seq<string>, rt: seq<string>, tail: seq<string>)
    requires |r| > 1 && rt == Init(r) + tail
    ensures [[c] + rt[0]] + rt[1..] == Init([[c] + r[0]] + r[1..]) + tail
    ensures Last([[c] + r[0]] + r[1..]) == Last(r)
  {
    assert rt[0] == r[0];
    assert rt[1..] == Init(r)[1..] + tail;
    assert Init([[c] + r[0]] + r[1..]) == [[c] + r[0]] + Init(r)[1..];
  }

  /** Splitting `s + t` splits `s` first: every complete piece of `s` comes out unchanged,
      and the rest is the split of `s`'s last piece followed by `t`. */
  lemma {:induction false} SplitAppend(s: string, t: string, sep: string)
    requires |sep| > 0
    ensures Split(s + t, sep) == Init(Split(s, sep)) + Split(Last(Split(s, sep)) + t, sep)
    decreases |s|
  {
    if |s| < |sep| {
      assert Split(s, sep) == [s];
    } else if s[..|sep|] == sep {
      SplitAppend(s[|sep|..], t, sep);
      AppendAtSeparator(s, t, sep);
    } else {
      SplitAppend(s[1..], t, sep);
      AppendElsewhere(s, t, sep);
    }
  }

  /** A text without the (one-character) separator splits into itself alone. */
  lemma {:induction false} SplitWithoutSeparator(s: string, c: char)
    requires c !in s
    ensures Split(s, [c]) == [s]
    decreases |s|
  {
    if |s| >= 1 {
      assert s[..1] != [c] by {
        assert s[0] != c;
      }
      SplitWithoutSeparator(s[1..], c);
      SplitElsewhere(s, [c]);
      assert [s[0]] + s[1..] == s;
    }
  }

  /** Text up to the first separator is the first piece; the rest is split on its own. */
  lemma {:induction false} SplitAtFirst(a: string, c: char, t: string)
    requires c !in a
    ensures Split(a + [c] + t, [c]) == [a] + Split(t, [c])
    decreases |a|
  {
    var s := a + [c] + t;
    if a == [] {
      assert s[..1] == [c] && s[1..] == t;
      SplitAtSeparator(s, [c]);
    } else {
      assert s[..1] != [c] by {
        assert s[0] == a[0] != c;
      }
      assert s[1..] == a[1..] + [c] + t;
      SplitAtFirst(a[1..], c, t);
      SplitElsewhere(s, [c]);
      assert [a[0]] + a[1..] == a;
    }
  }

  // ---------------------------------------------------------------------------
  // digits

  function DigitValue(c: char): (d: nat)
    ensures IsDigit(c) ==> d < 10
  {
    if IsDigit(c) then c as int - '0' as int
    else if 'a' <= c <= 'z' then c as int - 'a' as int + 10
    else if 'A' <= c <= 'Z' then c as int - 'A' as int + 10
    else 99
  }

  /** A digit of the given radix (2..36), letters standing for 10 and up. */
  predicate IsRadixDigit(c: char, radix: nat) {
    (IsDigit(c) || IsAsciiLetter(c)) && DigitValue(c) < radix
  }

  /** Value of a digit string in `radix`, most significant digit first. */
  function DigitsValue(ds: string, radix: nat): nat
    decreases |ds|
  {
    if ds == [] then 0
    else DigitsValue(ds[..|ds| - 1], radix) * radix + (if DigitValue(ds[|ds| - 1]) < radix then DigitValue(ds[|ds| - 1]) else 0)
  }

  /** Length of the longest prefix of `s` made of `radix` digits. */
  function DigitRun(s: string, radix: nat): (n: nat)
    ensures n <= |s|
    ensures forall i :: 0 <= i < n ==> IsRadixDigit(s[i], radix)
    ensures n == |s| || !IsRadixDigit(s[n], radix)
  {
    if s != [] && IsRadixDigit(s[0], radix) then 1 + DigitRun(s[1..], radix) else 0
  }

  function DigitChar(d: nat): (c: char)
    requires d < 10
    ensures IsDigit(c) && DigitValue(c) == d
  {
    ('0' as int + d) as char
  }

  /** Decimal rendering of a natural number, without leading zeros. */
  function NatToString(n: nat): (s: string)
    ensures |s| >= 1 && AllDigits(s)
    ensures DigitsValue(s, 10) == n
    decreases n
  {
    if n < 10 then
      assert DigitsValue([DigitChar(n)], 10) == DigitsValue([], 10) * 10 + n;
      [DigitChar(n)]
    else
      var r := NatToString(n / 10) + [DigitChar(n % 10)];
      assert r[..|r| - 1] == NatToString(n / 10);
      r
  }

  /** `String(i)` for an integer. */
  function IntToString(i: int): (s: string)
    ensures |s| >= 1
  {
    if i < 0 then "-" + NatToString(-i) else NatToString(i)
  }

  lemma DigitRunOfDigits(s: string)
    requires AllDigits(s)
    ensures DigitRun(s, 10) == |s|
  {
    if s != [] {
      DigitRunOfDigits(s[1..]);
    }
  }
}
