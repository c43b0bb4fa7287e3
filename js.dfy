/** Values as the browser side hands them around: what a grid cell, a form
 *  field or a parsed response holds, and the few JavaScript operators the
 *  client applies to them (`===`, `== null`, truthiness, `String(v)`,
 *  `trim()`, the outcome of `Number(s)`). */
module Js {
  import opened Hundredths
  import opened Text

  /** A JavaScript value. Numbers are finite decimals; `NaN` and the
   *  infinities are not values of this type, and where the client can meet
   *  `NaN` the model says so with an `Option` or a `NumberReading`. */
  datatype JsValue = Undefined | Null | Bool(b: bool) | Number(n: Decimal) | Str(s: string)

  /** Two decimals denote the same number. */
  predicate SameNumber(x: Decimal, y: Decimal)
  {
    x.units * Pow10(y.scale) == y.units * Pow10(x.scale)
  }

  /** `a === b`: numbers compare by value, other primitives by kind and
   *  content. */
  predicate StrictEquals(a: JsValue, b: JsValue)
  {
    if a.Number? && b.Number? then SameNumber(a.n, b.n) else a == b
  }

  /** `v == null` (loose): true for `null` and `undefined` only. */
  predicate IsNullish(v: JsValue)
  {
    v.Undefined? || v.Null?
  }

  /** Truthiness, as `if (v)` and `!v` read it. */
  predicate Truthy(v: JsValue)
  {
    match v
    case Undefined => false
    case Null => false
    case Bool(b) => b
    case Number(n) => n.units != 0
    case Str(s) => s != []
  }

  /** The integer part of `m / 10^scale` and the `scale` digits after the
   *  point, most significant first. */
  function ShiftPoint(m: nat, scale: nat): (r: (nat, string))
    ensures |r.1| == scale
    ensures forall i :: 0 <= i < |r.1| ==> IsDigit(r.1[i])
  {
    if scale == 0 then (m, [])
    else
      var (whole, digits) := ShiftPoint(m / 10, scale - 1);
      (whole, digits + [DigitChar(m % 10)])
  }

  /** The magnitude `m / 10^scale` written positionally: the integer
   *  digits, then a point and the fraction digits when the fraction is not
   *  zero, without trailing zeros. The text ends with a digit. */
  function Positional(m: nat, scale: nat): (s: string)
    ensures s != [] && IsDigit(s[|s| - 1])
  {
    if scale == 0 then NatToString(m)
    else if m % 10 == 0 then Positional(m / 10, scale - 1)
    else
      var (whole, digits) := ShiftPoint(m, scale);
      var s := NatToString(whole) + "." + digits;
      assert s[|s| - 1] == digits[scale - 1];
      s
  }

  /** `String(n)` for a number written positionally: an optional minus
   *  sign and the positional magnitude. Such a text is never empty and ends
   *  with a digit, never with the point. */
  function NumberText(d: Decimal): (s: string)
    ensures s != [] && IsDigit(s[|s| - 1])
  {
    var sign := if d.units < 0 then "-" else "";
    var mag := Positional(Abs(d.units), d.scale);
    assert (sign + mag)[|sign + mag| - 1] == mag[|mag| - 1];
    sign + mag
  }

  /** `String(v)`, which is also the property key `row[v]` uses. */
  function ToText(v: JsValue): string
  {
    match v
    case Undefined => "undefined"
    case Null => "null"
    case Bool(b) => if b then "true" else "false"
    case Number(n) => NumberText(n)
    case Str(s) => s
  }

  /** The UTF-16 code units one character takes: a surrogate pair beyond
   *  the Basic Multilingual Plane, a single unit inside it. */
  function Utf16Units(c: char): (n: nat)
    ensures 1 <= n <= 2
    ensures n == 2 <==> c as int >= 0x1_0000
  {
    if c as int < 0x1_0000 then 1 else 2
  }

  /** `s.length`, which counts UTF-16 code units rather than characters. */
  function Utf16Length(s: string): (n: nat)
    ensures |s| <= n <= 2 * |s|
  {
    if s == [] then 0 else Utf16Units(s[0]) + Utf16Length(s[1..])
  }

  /** The length of a concatenation is the sum of the lengths. */
  lemma {:induction false} Utf16LengthAppend(a: string, b: string)
    ensures Utf16Length(a + b) == Utf16Length(a) + Utf16Length(b)
    decreases |a|
  {
    if a == [] {
      assert a + b == b;
    } else {
      assert (a + b)[1..] == a[1..] + b;
      Utf16LengthAppend(a[1..], b);
    }
  }

  /** Inside the Basic Multilingual Plane the length is the number of
   *  characters; beyond it, twice that. */
  lemma {:induction false} Utf16LengthUniform(s: string)
    ensures (forall i :: 0 <= i < |s| ==> s[i] as int < 0x1_0000) ==> Utf16Length(s) == |s|
    ensures (forall i :: 0 <= i < |s| ==> s[i] as int >= 0x1_0000) ==> Utf16Length(s) == 2 * |s|
    decreases |s|
  {
    if s != [] {
      Utf16LengthUniform(s[1..]);
      assert forall i :: 0 <= i < |s| - 1 ==> s[1..][i] == s[i + 1];
    }
  }

  /** The characters `String.prototype.trim` removes: white space and line
   *  terminators, including the ideographic space. */
  predicate IsJsSpace(c: char)
  {
    c in {'\t', '\n', '\U{0B}', '\U{0C}', '\r', ' ', '\U{A0}', '\U{1680}', '\U{2028}', '\U{2029}',
          '\U{202F}', '\U{205F}', '\U{3000}', '\U{FEFF}'}
    || '\U{2000}' <= c <= '\U{200A}'
  }

  /** How many white-space characters `s` starts with. */
  function LeadingSpaces(s: string): (n: nat)
    ensures n <= |s|
    ensures forall i :: 0 <= i < n ==> IsJsSpace(s[i])
    ensures n < |s| ==> !IsJsSpace(s[n])
  {
    if s != [] && IsJsSpace(s[0]) then 1 + LeadingSpaces(s[1..]) else 0
  }

  /** How many white-space characters `s` ends with. */
  function TrailingSpaces(s: string): (n: nat)
    ensures n <= |s|
    ensures forall i :: |s| - n <= i < |s| ==> IsJsSpace(s[i])
    ensures n < |s| ==> !IsJsSpace(s[|s| - 1 - n])
  {
    if s != [] && IsJsSpace(s[|s| - 1]) then 1 + TrailingSpaces(s[..|s| - 1]) else 0
  }

  /** `s.trim()`: the slice of `s` after its leading white space that
   *  neither starts nor ends with white space, everything cut off at the end
   *  being white space too. */
  function Trim(s: string): (r: string)
    ensures LeadingSpaces(s) + |r| <= |s| && r == s[LeadingSpaces(s)..LeadingSpaces(s) + |r|]
    ensures forall j :: LeadingSpaces(s) + |r| <= j < |s| ==> IsJsSpace(s[j])
    ensures r == [] || (!IsJsSpace(r[0]) && !IsJsSpace(r[|r| - 1]))
  {
    var lead := LeadingSpaces(s);
    if lead == |s| then []
    else
      var trail := TrailingSpaces(s);
      assert lead < |s| - trail by {
        assert !IsJsSpace(s[lead]);
      }
      s[lead..|s| - trail]
  }

  /** `LeadingSpaces` counts exactly the white space up to the first other
   *  character. */
  lemma {:induction false} LeadingSpacesExact(s: string, n: nat)
    requires n <= |s|
    requires forall i :: 0 <= i < n ==> IsJsSpace(s[i])
    requires n < |s| ==> !IsJsSpace(s[n])
    ensures LeadingSpaces(s) == n
    decreases n
  {
    if n > 0 {
      LeadingSpacesExact(s[1..], n - 1);
    }
  }

  /** Trimming twice trims nothing more. */
  lemma TrimIdempotent(s: string)
    ensures Trim(Trim(s)) == Trim(s)
  {
    var t := Trim(s);
    if t != [] {
      assert LeadingSpaces(t) == 0;
      assert TrailingSpaces(t) == 0;
      assert t[0..|t|] == t;
    }
  }

  /** What `Number(s)` gives for a trimmed text. The browser computes it; the
   *  model takes it as an input. */
  datatype NumberReading = NotANumber | Infinite(negative: bool) | Finite(value: Decimal)

  /** `x > hundredths / 100`, exactly. */
  predicate Above(x: Decimal, hundredths: int)
  {
    x.units * 100 > hundredths * Pow10(x.scale)
  }

  /** `x < 0`. */
  predicate Negative(x: Decimal)
  {
    x.units < 0
  }
}
