/** JavaScript values as the modelled code sees them: parsed JSON, props and store
    records. Numbers are exact reals (no Infinity, no -0). Objects are finite maps
    from property names to values; an absent key reads as `undefined`. */
module JsValues {
  import opened Wrappers
  import opened JsText

  datatype Value =
    | Undefined
    | Null
    | Bool(b: bool)
    | Num(n: real)
    | NaN
    | Str(s: string)
    | Arr(items: seq<Value>)
    | Obj(fields: map<string, Value>)

  type Object = map<string, Value>

  /** JavaScript truthiness. */
  predicate Truthy(v: Value) {
    match v
    case Undefined => false
    case Null => false
    case Bool(b) => b
    case Num(n) => n != 0.0
    case NaN => false
    case Str(s) => s != ""
    case Arr(_) => true
    case Obj(_) => true
  }

  /** `v == null` (null or undefined): what `??` and `?.` test. */
  predicate Nullish(v: Value) {
    v == Undefined || v == Null
  }

  /** `o[key]`: absent keys read as undefined. */
  function Get(o: Object, key: string): (v: Value)
    ensures key !in o ==> v == Undefined
  {
    if key in o then o[key] else Undefined
  }

  /** `v?.[key]` for the property names the model reads, which only objects carry. */
  function Prop(v: Value, key: string): (r: Value)
    ensures !v.Obj? ==> r == Undefined
  {
    if v.Obj? then Get(v.fields, key) else Undefined
  }

  /** `vs[0] || vs[1] || ...`: the first truthy operand, else the last operand. */
  function OrChain(vs: seq<Value>): (r: Value)
    requires |vs| >= 1
    ensures Truthy(r) ==> exists i :: 0 <= i < |vs| && r == vs[i] && forall j :: 0 <= j < i ==> !Truthy(vs[j])
    ensures !Truthy(r) ==> r == vs[|vs| - 1] && forall i :: 0 <= i < |vs| ==> !Truthy(vs[i])
  {
    if |vs| == 1 || Truthy(vs[0]) then vs[0]
    else
      var r := OrChain(vs[1..]);
      assert forall i :: 1 <= i < |vs| ==> vs[i] == vs[1..][i - 1];
      r
  }

  /** `vs[0] ?? vs[1] ?? ...`: the first operand that is not null/undefined, else the last. */
  function Coalesce(vs: seq<Value>): (r: Value)
    requires |vs| >= 1
    ensures !Nullish(r) ==> exists i :: 0 <= i < |vs| && r == vs[i] && forall j :: 0 <= j < i ==> Nullish(vs[j])
    ensures Nullish(r) ==> r == vs[|vs| - 1] && forall i :: 0 <= i < |vs| ==> Nullish(vs[i])
  {
    if |vs| == 1 || !Nullish(vs[0]) then vs[0]
    else
      var r := Coalesce(vs[1..]);
      assert forall i :: 1 <= i < |vs| ==> vs[i] == vs[1..][i - 1];
      r
  }

  /** The first truthy value of the named fields, else `fallback`: `o.a || o.b || fallback`. */
  function FirstTruthyField(v: Value, keys: seq<string>, fallback: Value): (r: Value)
    ensures Truthy(r) || r == fallback
    ensures forall i :: 0 <= i < |keys| && Truthy(Prop(v, keys[i])) ==> Truthy(r)
    ensures (forall i :: 0 <= i < |keys| ==> !Truthy(Prop(v, keys[i]))) ==> r == fallback
    ensures |keys| >= 1 && Truthy(Prop(v, keys[0])) ==> r == Prop(v, keys[0])
  {
    if keys == [] then fallback
    else if Truthy(Prop(v, keys[0])) then Prop(v, keys[0])
    else
      assert forall i :: 1 <= i < |keys| ==> keys[i] == keys[1..][i - 1];
      FirstTruthyField(v, keys[1..], fallback)
  }

  /** `{ ...base, ...payload }` for two objects: the payload's keys win, the rest of `base` is kept. */
  function Spread(base: Object, payload: Object): (r: Object)
    ensures r.Keys == base.Keys + payload.Keys
    ensures forall k :: k in payload ==> r[k] == payload[k]
    ensures forall k :: k in base && k !in payload ==> r[k] == base[k]
  {
    base + payload
  }

  /** The own fields `...v` copies: an object's fields; other values are taken to contribute
      none. */
  function OwnFields(v: Value): Object {
    if v.Obj? then v.fields else map[]
  }

  /** Spreading the same payload twice is spreading it once. */
  lemma SpreadIdempotent(base: Object, payload: Object)
    ensures Spread(Spread(base, payload), payload) == Spread(base, payload)
  {
  }

  /** `v?.length` is truthy: a non-empty array or string, or an object whose `length` is truthy. */
  predicate LengthTruthy(v: Value) {
    match v
    case Arr(items) => |items| > 0
    case Str(s) => |s| > 0
    case Obj(m) => Truthy(Get(m, "length"))
    case _ => false
  }

  // ---------------------------------------------------------------------------
  // number <-> string

  const Big: real := 1000000000000000000000.0
  const Micro: real := 0.000001
  /** What the model renders for a number whose JavaScript text it does not reproduce. */
  const NumberPlaceholder: string := "<number>"

  function Pow10(k: nat): (r: real)
    ensures r >= 1.0
  {
    if k == 0 then 1.0 else 10.0 * Pow10(k - 1)
  }

  /** 10 raised to an integer power. */
  function Scale(e: int): (r: real)
    ensures r > 0.0
  {
    if e >= 0 then Pow10(e) else 1.0 / Pow10(-e)
  }

  predicate IsIntegral(x: real) {
    x.Floor as real == x
  }

  /** The fewest fractional digits (at most 20) that write `x` exactly, if any. */
  function FractionDigits(x: real, k: nat): (r: Option<nat>)
    ensures r.Some? ==> k <= r.value <= 20
    decreases 21 - k
  {
    if k > 20 then None
    else if IsIntegral(x * Pow10(k)) then Some(k)
    else FractionDigits(x, k + 1)
  }

  /** `s` left-padded with zeros to `width` characters. */
  function PadZeros(s: string, width: nat): (r: string)
    ensures |r| >= width && |r| >= |s|
    decreases width - |s|
  {
    if |s| >= width then s else PadZeros("0" + s, width)
  }

  /** `String(n)` for a non-negative number in plain (non-exponent) notation. */
  function PlainNumberText(m: real): string
    requires m >= 0.0
  {
    if m == 0.0 then "0"
    else if m >= Big || m < Micro then NumberPlaceholder
    else if IsIntegral(m) then NatToString(m.Floor)
    else
      match FractionDigits(m, 1)
      case None => NumberPlaceholder
      case Some(k) =>
        var whole := m.Floor;
        var frac := ((m - whole as real) * Pow10(k)).Floor;
        NatToString(whole) + "." + PadZeros(NatToString(if frac < 0 then 0 else frac), k)
  }

  /** `String(n)`: exact for integers below 10^21 and for numbers of at least 10^-6 written
      with at most 20 fractional digits; other numbers render as `NumberPlaceholder`. */
  function NumberToString(n: real): string {
    if n < 0.0 then "-" + PlainNumberText(-n) else PlainNumberText(n)
  }

  /** `String(v)` (also a template literal's `${v}`). */
  function ToJsString(v: Value): string
    decreases v
  {
    match v
    case Undefined => "undefined"
    case Null => "null"
    case Bool(b) => if b then "true" else "false"
    case Num(n) => NumberToString(n)
    case NaN => "NaN"
    case Str(s) => s
    case Arr(items) =>
      Join(seq(|items|, i requires 0 <= i < |items| =>
        if Nullish(items[i]) then "" else ToJsString(items[i])), ",")
    case Obj(_) => "[object Object]"
  }

  datatype Scanned = Scanned(value: real, len: nat)

  /** An exponent part `e[+-]digits`, if `r` starts with one. */
  function ExponentPrefix(r: string): (x: Option<(int, nat)>)
    ensures x.Some? ==> 2 <= x.value.1 <= |r|
  {
    if |r| >= 2 && (r[0] == 'e' || r[0] == 'E') then
      var signed := r[1] == '+' || r[1] == '-';
      var ds := if signed then r[2..] else r[1..];
      var n := DigitRun(ds, 10);
      if n == 0 then None
      else
        var mag: int := DigitsValue(ds[..n], 10);
        Some((if r[1] == '-' then -mag else mag, (if signed then 2 else 1) + n))
    else None
  }

  /** The longest prefix of `u` that is an unsigned decimal literal (digits, optional
      fraction, optional exponent), with its value. */
  function UnsignedDecimalPrefix(u: string): (r: Option<Scanned>)
    ensures r.Some? ==> 1 <= r.value.len <= |u|
  {
    var i := DigitRun(u, 10);
    var hasDot := i < |u| && u[i] == '.';
    var f := if hasDot then DigitRun(u[i + 1..], 10) else 0;
    if i == 0 && f == 0 then None
    else
      var m := if hasDot then i + 1 + f else i;
      var mant := DigitsValue(u[..i], 10) as real
        + (if hasDot then DigitsValue(u[i + 1..i + 1 + f], 10) as real / Pow10(f) else 0.0);
      match ExponentPrefix(u[m..])
      case None => Some(Scanned(mant, m))
      case Some(e) => Some(Scanned(mant * Scale(e.0), m + e.1))
  }

  /** The longest prefix of `t` that is a signed decimal literal. */
  function DecimalPrefix(t: string): (r: Option<Scanned>)
    ensures r.Some? ==> 1 <= r.value.len <= |t|
  {
    if |t| >= 1 && (t[0] == '+' || t[0] == '-') then
      match UnsignedDecimalPrefix(t[1..])
      case None => None
      case Some(d) => Some(Scanned(if t[0] == '-' then -d.value else d.value, d.len + 1))
    else UnsignedDecimalPrefix(t)
  }

  /** `parseFloat(s)`; None is NaN. */
  function ParseFloat(s: string): Option<real> {
    match DecimalPrefix(TrimStart(s))
    case None => None
    case Some(d) => Some(d.value)
  }

  /** The unsigned part of `parseInt`: an optional `0x`, then the longest digit run. */
  function ParseUnsignedInt(u: string): Option<nat> {
    var hex := |u| >= 2 && u[0] == '0' && (u[1] == 'x' || u[1] == 'X');
    var radix := if hex then 16 else 10;
    var ds := if hex then u[2..] else u;
    var n := DigitRun(ds, radix);
    if n == 0 then None else Some(DigitsValue(ds[..n], radix))
  }

  /** A decimal digit string without a leading zero is read whole. */
  lemma ParseUnsignedDigits(u: string)
    requires AllDigits(u) && |u| >= 1 && (u[0] == '0' ==> |u| == 1)
    ensures ParseUnsignedInt(u) == Some(DigitsValue(u, 10))
  {
    DigitRunOfDigits(u);
    assert u[..|u|] == u;
  }

  /** `parseInt(s)` without a radix: leading whitespace, an optional sign, then the unsigned part. */
  function ParseInt(s: string): Option<int> {
    SignedInt(TrimStart(s))
  }

  function SignedInt(t: string): Option<int> {
    if |t| >= 1 && t[0] == '-' then
      match ParseUnsignedInt(t[1..])
      case None => None
      case Some(mag) => Some(-(mag as int))
    else if |t| >= 1 && t[0] == '+' then
      match ParseUnsignedInt(t[1..])
      case None => None
      case Some(mag) => Some(mag as int)
    else
      match ParseUnsignedInt(t)
      case None => None
      case Some(mag) => Some(mag as int)
  }

  /** Number(s) for a string: blank is 0, otherwise the whole trimmed text must be a literal. */
  function StringToNumber(s: string): Option<real> {
    var t := Trim(s);
    if t == [] then Some(0.0)
    else if |t| >= 2 && t[0] == '0' && t[1] in "xXoObB" then
      var radix := if t[1] in "xX" then 16 else if t[1] in "oO" then 8 else 2;
      var body := t[2..];
      if |body| >= 1 && DigitRun(body, radix) == |body| then Some(DigitsValue(body, radix) as real) else None
    else
      match DecimalPrefix(t)
      case Some(d) => if d.len == |t| then Some(d.value) else None
      case None => None
  }

  /** `Number(v)`; None is NaN. */
  function ToNumber(v: Value): Option<real> {
    match v
    case Undefined => None
    case Null => Some(0.0)
    case Bool(b) => Some(if b then 1.0 else 0.0)
    case Num(n) => Some(n)
    case NaN => None
    case Str(s) => StringToNumber(s)
    case _ => StringToNumber(ToJsString(v))
  }

  /** `Number(v) || 0`. */
  function NumberOrZero(v: Value): real {
    match ToNumber(v)
    case Some(n) => n
    case None => 0.0
  }

  /** `parseInt(v)` of any value: the value is converted to a string first. */
  function ParseIntOf(v: Value): Option<int> {
    ParseInt(ToJsString(v))
  }

  /** `parseFloat(v)` of any value. */
  function ParseFloatOf(v: Value): Option<real> {
    ParseFloat(ToJsString(v))
  }

  lemma NatTextStartsWithDigit(n: nat)
    ensures IsDigit(NatToString(n)[0])
    ensures NatToString(n)[0] == '0' ==> NatToString(n) == "0"
    decreases n
  {
    if n >= 10 {
      NatTextStartsWithDigit(n / 10);
    }
  }

  lemma DigitNotSpaceOrSign(c: char)
    requires IsDigit(c)
    ensures !IsWhitespace(c) && c != '-' && c != '+'
  {
  }

  lemma TrimStartKeeps(s: string)
    requires s == [] || !IsWhitespace(s[0])
    ensures TrimStart(s) == s
  {
  }

  lemma SignedIntNegative(t: string, v: nat)
    requires |t| >= 1 && t[0] == '-' && ParseUnsignedInt(t[1..]) == Some(v)
    ensures SignedInt(t) == Some(-(v as int))
  {
  }

  lemma SignedIntUnsigned(t: string, v: nat)
    requires |t| >= 1 && t[0] != '-' && t[0] != '+' && ParseUnsignedInt(t) == Some(v)
    ensures SignedInt(t) == Some(v as int)
  {
  }

  /** A canonical decimal digit string of value `v` is read whole by `parseInt`. */
  lemma ParseIntOfDigits(s: string, v: nat)
    requires AllDigits(s) && |s| >= 1 && (s[0] == '0' ==> |s| == 1)
    requires v == DigitsValue(s, 10)
    ensures ParseInt(s) == Some(v as int)
  {
    ParseUnsignedDigits(s);
    assert IsDigit(s[0]);
    DigitNotSpaceOrSign(s[0]);
    TrimStartKeeps(s);
    SignedIntUnsigned(s, v);
  }

  /** ... and so is the same string after a minus sign. */
  lemma ParseIntOfNegatedDigits(s: string, v: nat)
    requires AllDigits(s) && |s| >= 1 && (s[0] == '0' ==> |s| == 1)
    requires v == DigitsValue(s, 10)
    ensures ParseInt("-" + s) == Some(-(v as int))
  {
    ParseUnsignedDigits(s);
    var t := "-" + s;
    TrimStartKeeps(t);
    assert t[0] == '-' && t[1..] == s;
    SignedIntNegative(t, v);
  }

  lemma IntegerText(k: int)
    requires -Big < k as real < Big
    ensures NumberToString(k as real) == IntToString(k)
  {
    var m: nat := if k < 0 then -k else k;
    assert (m as real).Floor == m;
  }

  /** An integer renders as digits that `parseInt` reads back. */
  lemma ParseIntOfInteger(k: int)
    requires -Big < k as real < Big
    ensures ParseIntOf(Num(k as real)) == Some(k)
  {
    IntegerText(k);
    var m: nat := if k < 0 then -k else k;
    NatTextStartsWithDigit(m);
    assert ToJsString(Num(k as real)) == IntToString(k);
    if k < 0 {
      assert IntToString(k) == "-" + NatToString(m);
      ParseIntOfNegatedDigits(NatToString(m), m);
    } else {
      assert IntToString(k) == NatToString(m);
      ParseIntOfDigits(NatToString(m), m);
    }
  }

  /** A decimal digit string is read whole by `parseFloat`. */
  lemma ParseFloatOfDigits(s: string)
    requires AllDigits(s) && |s| >= 1
    ensures ParseFloat(s) == Some(DigitsValue(s, 10) as real)
  {
    assert IsDigit(s[0]);
    DigitNotSpaceOrSign(s[0]);
    TrimStartKeeps(s);
    DigitRunOfDigits(s);
    assert s[..|s|] == s && s[|s|..] == [];
  }

  /** A natural number renders as digits that `parseFloat` reads back. */
  lemma ParseFloatOfNatural(k: nat)
    requires (k as real) < Big
    ensures ParseFloatOf(Num(k as real)) == Some(k as real)
  {
    IntegerText(k);
    assert ToJsString(Num(k as real)) == NatToString(k);
    ParseFloatOfDigits(NatToString(k));
  }

  lemma {:induction false} DigitRunOfPrefix(s: string, n: nat)
    requires n <= |s| && AllDigits(s[..n]) && (n == |s| || !IsDigit(s[n]))
    ensures DigitRun(s, 10) == n
    decreases n
  {
    if n > 0 {
      assert IsDigit(s[..n][0]);
      assert s[1..][..n - 1] == s[1..n] == s[..n][1..];
      assert n - 1 == |s[1..]| || s[1..][n - 1] == s[n];
      DigitRunOfPrefix(s[1..], n - 1);
    }
  }

  /** `parseInt` reads the leading run of decimal digits and ignores the rest. */
  lemma ParseIntOfPrefix(s: string, n: nat)
    requires 1 <= n <= |s| && AllDigits(s[..n]) && (n == |s| || !IsDigit(s[n]))
    requires s[0] != '0'
    ensures ParseInt(s) == Some(DigitsValue(s[..n], 10) as int)
  {
    assert IsDigit(s[..n][0]);
    DigitNotSpaceOrSign(s[0]);
    TrimStartKeeps(s);
    DigitRunOfPrefix(s, n);
  }

  /** A text that starts with a letter past the hexadecimal ones has no number prefix:
      `parseInt` and `parseFloat` give NaN. */
  lemma NoNumberPrefix(s: string)
    requires |s| >= 1 && 'g' <= s[0] <= 'z'
    ensures ParseInt(s).None? && ParseFloat(s).None?
  {
    assert !IsWhitespace(s[0]);
    TrimStartKeeps(s);
    NoIntPrefix(s);
    NoFloatPrefix(s);
  }

  lemma NoIntPrefix(s: string)
    requires |s| >= 1 && 'g' <= s[0] <= 'z'
    ensures SignedInt(s).None?
  {
    assert DigitValue(s[0]) >= 16;
    assert DigitRun(s, 10) == 0;
  }

  lemma NoFloatPrefix(s: string)
    requires |s| >= 1 && 'g' <= s[0] <= 'z'
    ensures DecimalPrefix(s).None?
  {
    assert DigitValue(s[0]) >= 16;
    assert DigitRun(s, 10) == 0;
  }

  /** `parseInt` and `parseFloat` of null or undefined are NaN. */
  lemma NullishHasNoNumber(v: Value)
    requires v == Undefined || v == Null
    ensures ParseIntOf(v).None? && ParseFloatOf(v).None?
  {
    if v == Undefined {
      NoNumberPrefix("undefined");
    } else {
      NoNumberPrefix("null");
    }
  }
}
