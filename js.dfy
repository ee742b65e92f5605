/**
 * The fragment of JavaScript value semantics that the portal's code relies on:
 * truthiness (`a || b`), property access and its TypeError, string helpers
 * (trim, toLowerCase over ASCII, includes, split, join) and the numeric
 * conversions `Number(v)` and `parseFloat(v)`.
 *
 * Numbers are exact reals; NaN is not a value of `JsValue` and shows up as
 * `None` in the result of a conversion.
 */
module Js {
  import opened Wrappers

  datatype JsValue =
    | Undefined
    | Null
    | Bool(b: bool)
    | Num(n: real)
    | Str(s: string)
    | Arr(items: seq<JsValue>)
    | Obj(fields: map<string, JsValue>)

  /** ToBoolean: the falsy values are undefined, null, false, 0 and "". */
  predicate Truthy(v: JsValue) {
    match v
    case Undefined => false
    case Null => false
    case Bool(b) => b
    case Num(n) => n != 0.0
    case Str(s) => s != ""
    case Arr(_) => true
    case Obj(_) => true
  }

  /** `a || b` */
  function Or(a: JsValue, b: JsValue): JsValue {
    if Truthy(a) then a else b
  }

  /** `v != null`, that is, neither null nor undefined. */
  predicate NotNullish(v: JsValue) {
    !(v.Undefined? || v.Null?)
  }

  /**
   * `v.key`: None when the access throws a TypeError (v is null or undefined).
   * Only named keys are read by the portal (never "length" or an index), so
   * arrays and primitives yield undefined.
   */
  function Get(v: JsValue, key: string): (r: Option<JsValue>)
    ensures r.None? <==> !NotNullish(v)
    ensures v.Obj? && key in v.fields ==> r == Some(v.fields[key])
  {
    match v
    case Undefined => None
    case Null => None
    case Obj(m) => Some(if key in m then m[key] else Undefined)
    case _ => Some(Undefined)
  }

  /** `v?.key` */
  function OptGet(v: JsValue, key: string): JsValue {
    match Get(v, key)
    case Some(x) => x
    case None => Undefined
  }

  /** Object literal fields are looked up through the map. */
  predicate HasKey(v: JsValue, key: string) {
    v.Obj? && key in v.fields
  }

  // ---------------------------------------------------------------------
  // Characters and strings

  /** WhiteSpace and LineTerminator code points, as `String.prototype.trim` removes them. */
  predicate IsSpace(c: char) {
    c == ' ' || c == '\t' || c == '\n' || c == '\r' || c == '\U{000B}' || c == '\U{000C}'
    || c == '\U{00A0}' || c == '\U{FEFF}' || c == '\U{1680}' || ('\U{2000}' <= c <= '\U{200A}')
    || c == '\U{2028}' || c == '\U{2029}' || c == '\U{202F}' || c == '\U{205F}' || c == '\U{3000}'
  }

  function TrimStart(s: string): (r: string)
    ensures |r| <= |s| && r == s[|s| - |r|..]
    ensures r == [] || !IsSpace(r[0])
    ensures forall i | 0 <= i < |s| - |r| :: IsSpace(s[i])
    decreases |s|
  {
    if s != [] && IsSpace(s[0]) then TrimStart(s[1..]) else s
  }

  function TrimEnd(s: string): (r: string)
    ensures |r| <= |s| && r == s[..|r|]
    ensures r == [] || !IsSpace(r[|r| - 1])
    ensures forall i | |r| <= i < |s| :: IsSpace(s[i])
    decreases |s|
  {
    if s != [] && IsSpace(s[|s| - 1]) then TrimEnd(s[..|s| - 1]) else s
  }

  /** `s.trim()` */
  function Trim(s: string): string {
    TrimEnd(TrimStart(s))
  }

  /** A string with no white space at either end is its own trim. */
  lemma TrimUnpadded(s: string)
    requires s == [] || (!IsSpace(s[0]) && !IsSpace(s[|s| - 1]))
    ensures Trim(s) == s
  {
  }

  /** `toLowerCase` restricted to ASCII letters. */
  function LowerChar(c: char): char {
    if 'A' <= c <= 'Z' then (c as int + 32) as char else c
  }

  function Lower(s: string): (r: string)
    ensures |r| == |s|
    ensures forall i | 0 <= i < |s| :: r[i] == LowerChar(s[i])
  {
    seq(|s|, i requires 0 <= i < |s| => LowerChar(s[i]))
  }

  predicate StartsWith(s: string, p: string) {
    |p| <= |s| && s[..|p|] == p
  }

  /** `hay.includes(needle)` */
  predicate Includes(hay: string, needle: string)
    decreases |hay|
  {
    StartsWith(hay, needle) || (hay != [] && Includes(hay[1..], needle))
  }

  /** `needle` occurs in `hay` at offset `i`. */
  predicate OccursAt(hay: string, needle: string, i: int) {
    0 <= i <= |hay| - |needle| && hay[i..i + |needle|] == needle
  }

  /** `includes` means: the needle occurs at some offset. */
  lemma {:induction false} IncludesIff(hay: string, needle: string)
    ensures Includes(hay, needle) <==> exists i :: OccursAt(hay, needle, i)
    decreases |hay|
  {
    if hay != [] {
      IncludesIff(hay[1..], needle);
      if Includes(hay[1..], needle) {
        var i :| OccursAt(hay[1..], needle, i);
        assert OccursAt(hay, needle, i + 1);
      }
      if exists i :: OccursAt(hay, needle, i) {
        var i :| OccursAt(hay, needle, i);
        if i > 0 {
          assert OccursAt(hay[1..], needle, i - 1);
        }
      }
    }
    if StartsWith(hay, needle) {
      assert OccursAt(hay, needle, 0);
    }
    if hay == [] && exists i :: OccursAt(hay, needle, i) {
      var i :| OccursAt(hay, needle, i);
      assert i == 0 && needle == hay[0..0];
    }
  }

  function CountChar(s: string, c: char): nat {
    if s == [] then 0 else (if s[0] == c then 1 else 0) + CountChar(s[1..], c)
  }

  lemma {:induction false} CountCharAppend(a: string, b: string, c: char)
    ensures CountChar(a + b, c) == CountChar(a, c) + CountChar(b, c)
    decreases |a|
  {
    if a == [] {
      assert a + b == b;
    } else {
      assert (a + b)[1..] == a[1..] + b;
      CountCharAppend(a[1..], b, c);
    }
  }

  /** `xs.join(sep)` over strings. */
  function Join(xs: seq<string>, sep: string): string
    decreases |xs|
  {
    if xs == [] then "" else if |xs| == 1 then xs[0] else xs[0] + sep + Join(xs[1..], sep)
  }

  /** Every piece occurs in the joined text. */
  lemma {:induction false} JoinIncludes(xs: seq<string>, sep: string, i: nat)
    requires i < |xs|
    ensures Includes(Join(xs, sep), xs[i])
    decreases |xs|
  {
    var j := Join(xs, sep);
    IncludesIff(j, xs[i]);
    if |xs| == 1 {
      assert OccursAt(j, xs[i], 0);
    } else if i == 0 {
      assert j == xs[0] + (sep + Join(xs[1..], sep));
      assert OccursAt(j, xs[0], 0);
    } else {
      var rest := Join(xs[1..], sep);
      var head := xs[0] + sep;
      assert j == head + rest;
      assert xs[1..][i - 1] == xs[i];
      JoinIncludes(xs[1..], sep, i - 1);
      IncludesIff(rest, xs[i]);
      var p :| OccursAt(rest, xs[i], p);
      assert (head + rest)[|head| + p..|head| + p + |xs[i]|] == rest[p..p + |xs[i]|];
      assert OccursAt(j, xs[i], |head| + p);
    }
  }

  /**
   * `s.split(c)` for a one-character separator: one piece more than there
   * are separators, no piece contains the separator, and joining the pieces
   * back gives the original string.
   */
  function Split(s: string, c: char): (r: seq<string>)
    ensures |r| == CountChar(s, c) + 1
    ensures forall k | 0 <= k < |r| :: c !in r[k]
    ensures Join(r, [c]) == s
    decreases |s|
  {
    if s == [] then [""]
    else if s[0] == c then
      var rest := Split(s[1..], c);
      assert s == [c] + s[1..];
      [""] + rest
    else
      var rest := Split(s[1..], c);
      var r := [[s[0]] + rest[0]] + rest[1..];
      assert s == [s[0]] + s[1..];
      assert r[1..] == rest[1..];
      r
  }

  // ---------------------------------------------------------------------
  // Decimal text

  function DigitChar(d: nat): char
    requires d < 10
  {
    ('0' as int + d) as char
  }

  /** Decimal numeral of a natural number. */
  function NatToString(n: nat): (r: string)
    ensures r != []
    ensures forall i | 0 <= i < |r| :: IsDigit(r[i])
    decreases n
  {
    if n < 10 then [DigitChar(n)] else NatToString(n / 10) + [DigitChar(n % 10)]
  }

  function IntToString(i: int): string {
    if i < 0 then "-" + NatToString(-i) else NatToString(i)
  }

  /** Up to `fuel` digits of a fraction in [0, 1), stopping when it is exhausted. */
  function FractionDigits(frac: real, fuel: nat): string
    requires 0.0 <= frac < 1.0
    decreases fuel
  {
    if fuel == 0 || frac == 0.0 then ""
    else
      var d := (frac * 10.0).Floor;
      [DigitChar(d)] + FractionDigits(frac * 10.0 - d as real, fuel - 1)
  }

  /**
   * `String(n)` for numbers whose decimal expansion ends within 20 digits
   * after the point (every CGPA-like value); other reals are cut there.
   */
  function NumberText(n: real): string {
    if n < 0.0 then "-" + MagnitudeText(-n) else MagnitudeText(n)
  }

  function MagnitudeText(n: real): string
    requires n >= 0.0
  {
    var whole := n.Floor;
    var frac := n - whole as real;
    NatToString(whole) + (if frac == 0.0 then "" else "." + FractionDigits(frac, 20))
  }

  /** How `Array.prototype.join` renders one element. */
  function JoinText(v: JsValue): string
    decreases v
  {
    match v
    case Undefined => ""
    case Null => ""
    case Bool(b) => if b then "true" else "false"
    case Num(n) => NumberText(n)
    case Str(s) => s
    case Arr(xs) => Join(seq(|xs|, i requires 0 <= i < |xs| => JoinText(xs[i])), ",")
    case Obj(_) => "[object Object]"
  }

  // ---------------------------------------------------------------------
  // Numeric conversion

  predicate IsDigit(c: char) {
    '0' <= c <= '9'
  }

  /** Length of the run of digits that starts `s`. */
  function DigitRun(s: string): (k: nat)
    ensures k <= |s|
    ensures forall i | 0 <= i < k :: IsDigit(s[i])
    ensures k < |s| ==> !IsDigit(s[k])
    decreases |s|
  {
    if s != [] && IsDigit(s[0]) then 1 + DigitRun(s[1..]) else 0
  }

  function DigitsValue(ds: string): nat
    requires forall i | 0 <= i < |ds| :: IsDigit(ds[i])
    decreases |ds|
  {
    if ds == [] then 0
    else
      assert IsDigit(ds[|ds| - 1]);
      10 * DigitsValue(ds[..|ds| - 1]) + (ds[|ds| - 1] as int - '0' as int)
  }

  function Pow10(n: nat): (r: nat)
    ensures r > 0
  {
    if n == 0 then 1 else 10 * Pow10(n - 1)
  }

  datatype Scanned = Scanned(length: nat, value: real)

  /** The value of the decimal literal `whole.frac`. */
  function DecimalValue(whole: string, frac: string): real
    requires forall i | 0 <= i < |whole| :: IsDigit(whole[i])
    requires forall i | 0 <= i < |frac| :: IsDigit(frac[i])
  {
    DigitsValue(whole) as real + DigitsValue(frac) as real / Pow10(|frac|) as real
  }

  /** The longest prefix of `t` of the form `digits ("." digits?)? | "." digits`, with its value. */
  function ScanUnsigned(t: string): (r: Option<Scanned>)
    ensures r.Some? ==> 0 < r.value.length <= |t|
  {
    var k := DigitRun(t);
    if k < |t| && t[k] == '.' then
      var f := DigitRun(t[k + 1..]);
      if k + f == 0 then None
      else Some(Scanned(k + 1 + f, DecimalValue(t[..k], t[k + 1..][..f])))
    else if k == 0 then None
    else Some(Scanned(k, DigitsValue(t[..k]) as real))
  }

  /** The longest prefix of `s` that is a decimal literal with an optional sign, with its value. */
  function ScanDecimal(s: string): (r: Option<Scanned>)
    ensures r.Some? ==> 0 < r.value.length <= |s|
  {
    if s != [] && (s[0] == '+' || s[0] == '-') then
      match ScanUnsigned(s[1..])
      case Some(sc) => Some(Scanned(sc.length + 1, if s[0] == '-' then -sc.value else sc.value))
      case None => None
    else ScanUnsigned(s)
  }

  /** `Number(s)` for a string: blank is 0, a whole decimal literal is its value, anything else NaN. */
  function StringToNumber(s: string): Option<real> {
    var t := Trim(s);
    if t == [] then Some(0.0)
    else
      match ScanDecimal(t)
      case Some(sc) => if sc.length == |t| then Some(sc.value) else None
      case None => None
  }

  /** `Number(v)`; None stands for NaN. */
  function ToNumber(v: JsValue): Option<real>
    decreases v
  {
    match v
    case Undefined => None
    case Null => Some(0.0)
    case Bool(b) => Some(if b then 1.0 else 0.0)
    case Num(n) => Some(n)
    case Str(s) => StringToNumber(s)
    case Arr(xs) =>
      // an array converts through its comma-joined text
      if xs == [] then Some(0.0)
      else if |xs| > 1 then None
      else (match xs[0]
            case Undefined => Some(0.0)
            case Null => Some(0.0)
            case Bool(_) => None
            case Obj(_) => None
            case _ => ToNumber(xs[0]))
    case Obj(_) => None
  }

  /** `Number(v) || 0`: NaN and 0 both become 0. */
  function CoerceNumber(v: JsValue): real {
    ToNumber(v).GetOr(0.0)
  }

  /** `parseFloat(v)`: the longest decimal prefix after leading white space; None stands for NaN. */
  function ParseFloat(v: JsValue): Option<real>
    decreases v
  {
    match v
    case Num(n) => Some(n)
    case Str(s) =>
      (match ScanDecimal(TrimStart(s))
       case Some(sc) => Some(sc.value)
       case None => None)
    case Arr(xs) => if xs == [] then None else ParseFloat(xs[0])
    case _ => None
  }

  lemma {:induction false} DigitRunPrefix(a: string, rest: string)
    requires forall i | 0 <= i < |a| :: IsDigit(a[i])
    ensures DigitRun(a + rest) == |a| + DigitRun(rest)
    decreases |a|
  {
    if a != [] {
      assert (a + rest)[1..] == a[1..] + rest;
      DigitRunPrefix(a[1..], rest);
    } else {
      assert a + rest == rest;
    }
  }

  /** Digit strings with a decimal point in between scan as the number they spell. */
  lemma ScanDecimalPoint(a: string, b: string, rest: string)
    requires a != []
    requires forall i | 0 <= i < |a| :: IsDigit(a[i])
    requires forall i | 0 <= i < |b| :: IsDigit(b[i])
    requires rest == [] || !IsDigit(rest[0])
    ensures ScanUnsigned(a + "." + b + rest)
      == Some(Scanned(|a| + 1 + |b|, DecimalValue(a, b)))
  {
    var u := b + rest;
    var t := a + ("." + u);
    assert t == a + "." + b + rest;
    DigitsThenPoint(a, u);
    DigitsThenOther(b, rest);
    ScanUnsignedPoint(t, |a|, |b|, a, b);
  }

  /** Digits, then a point: the run stops at the point and the slices give the parts back. */
  lemma DigitsThenPoint(a: string, u: string)
    requires forall i | 0 <= i < |a| :: IsDigit(a[i])
    ensures var t := a + ("." + u);
      && DigitRun(t) == |a| && t[..|a|] == a && t[|a|] == '.' && t[|a| + 1..] == u
  {
    DigitRunPrefix(a, "." + u);
    assert DigitRun("." + u) == 0;
    var t := a + ("." + u);
    assert t[..|a|] == a;
    assert t[|a| + 1..] == u;
  }

  /** Digits, then text that does not start with a digit: the run stops after the digits. */
  lemma DigitsThenOther(b: string, rest: string)
    requires forall i | 0 <= i < |b| :: IsDigit(b[i])
    requires rest == [] || !IsDigit(rest[0])
    ensures DigitRun(b + rest) == |b| && (b + rest)[..|b|] == b
  {
    DigitRunPrefix(b, rest);
    assert DigitRun(rest) == 0;
    assert (b + rest)[..|b|] == b;
  }

  /** `ScanUnsigned` on text whose digit run of length `k` is followed by a point and `f` digits. */
  lemma ScanUnsignedPoint(t: string, k: nat, f: nat, whole: string, frac: string)
    requires DigitRun(t) == k && k < |t| && t[k] == '.'
    requires DigitRun(t[k + 1..]) == f && k + f > 0
    requires t[..k] == whole && t[k + 1..][..f] == frac
    ensures ScanUnsigned(t) == Some(Scanned(k + 1 + f, DecimalValue(whole, frac)))
  {
  }

  /** `Number("<digits>.<digits>")` is the decimal value the text spells. */
  lemma DecimalTextToNumber(a: string, b: string)
    requires a != []
    requires forall i | 0 <= i < |a| :: IsDigit(a[i])
    requires forall i | 0 <= i < |b| :: IsDigit(b[i])
    ensures ToNumber(Str(a + "." + b)) == Some(DecimalValue(a, b))
  {
    var s := a + "." + b;
    assert s == a + "." + b + "";
    ScanDecimalPoint(a, b, "");
    assert s[0] == a[0];
    assert !IsSpace(s[|s| - 1]) by {
      if b == [] { assert s[|s| - 1] == '.'; } else { assert s[|s| - 1] == b[|b| - 1]; }
    }
    TrimUnpadded(s);
    assert ScanDecimal(s) == ScanUnsigned(s);
  }

  /** `parseFloat` reads the decimal literal that starts the text and ignores what follows it. */
  lemma DecimalTextParseFloat(a: string, b: string, rest: string)
    requires a != []
    requires forall i | 0 <= i < |a| :: IsDigit(a[i])
    requires forall i | 0 <= i < |b| :: IsDigit(b[i])
    requires rest == [] || !IsDigit(rest[0])
    ensures ParseFloat(Str(a + "." + b + rest)) == Some(DecimalValue(a, b))
  {
    var s := a + "." + b + rest;
    ScanDecimalPoint(a, b, rest);
    assert s[0] == a[0];
    UnsignedTextScan(s);
  }

  /** Text that starts with a digit has no white space to skip and no sign to read. */
  lemma UnsignedTextScan(s: string)
    requires s != [] && IsDigit(s[0])
    ensures ScanDecimal(TrimStart(s)) == ScanUnsigned(s)
  {
    assert !IsSpace(s[0]);
    assert TrimStart(s) == s;
  }

  /** On plain `<digits>.<digits>` text, `Number` and `parseFloat` agree. */
  lemma DecimalTextReadsAlike(a: string, b: string)
    requires a != []
    requires forall i | 0 <= i < |a| :: IsDigit(a[i])
    requires forall i | 0 <= i < |b| :: IsDigit(b[i])
    ensures ToNumber(Str(a + "." + b)) == Some(DecimalValue(a, b))
    ensures ParseFloat(Str(a + "." + b)) == Some(DecimalValue(a, b))
  {
    DecimalTextToNumber(a, b);
    DecimalTextParseFloat(a, b, "");
    assert a + "." + b + "" == a + "." + b;
  }

  /** `Number` refuses a decimal literal followed by more text: it is NaN. */
  lemma DecimalTextWithSuffixIsNaN(a: string, b: string, rest: string)
    requires a != []
    requires forall i | 0 <= i < |a| :: IsDigit(a[i])
    requires forall i | 0 <= i < |b| :: IsDigit(b[i])
    requires rest != [] && !IsDigit(rest[0]) && !IsSpace(rest[|rest| - 1])
    ensures ToNumber(Str(a + "." + b + rest)) == None
  {
    var s := a + "." + b + rest;
    ScanDecimalPoint(a, b, rest);
    assert s[0] == a[0];
    assert s[|s| - 1] == rest[|rest| - 1];
    TrimUnpadded(s);
    assert ScanDecimal(s) == ScanUnsigned(s);
  }

  /** The two conversions part ways on blank text and on null: Number gives 0, parseFloat NaN. */
  lemma BlankAndNullDiffer()
    ensures ToNumber(Str("")) == Some(0.0) && ParseFloat(Str("")) == None
    ensures ToNumber(Null) == Some(0.0) && ParseFloat(Null) == None
    ensures ToNumber(Undefined) == None && CoerceNumber(Undefined) == 0.0
  {
  }
}
