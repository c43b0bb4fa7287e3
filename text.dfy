/** Strings as sequences of characters: the date-key shape shared by the
 *  server and the client, decimal rendering, and split/join on a separator. */
module Text {

  predicate IsDigit(c: char) { '0' <= c <= '9' }

  function DigitValue(c: char): (v: nat)
    requires IsDigit(c)
    ensures v < 10
  {
    (c as int) - ('0' as int)
  }

  function DigitChar(v: nat): (c: char)
    requires v < 10
    ensures IsDigit(c) && DigitValue(c) == v
  {
    (('0' as int) + v) as char
  }

  /** The value of a run of decimal digits, most significant first. */
  function DigitsValue(s: string): (v: nat)
    requires forall i :: 0 <= i < |s| ==> IsDigit(s[i])
  {
    if s == [] then 0 else DigitsValue(s[..|s| - 1]) * 10 + DigitValue(s[|s| - 1])
  }

  /** The pattern `YYYY-MM-DD` anchored at both ends: four digits, a dash, two
   *  digits, a dash, two digits, and nothing else. The server's
   *  `/\A\d{4}-\d{2}-\d{2}\z/` and the client's `/^\d{4}-\d{2}-\d{2}$/` both
   *  accept exactly these strings. */
  predicate IsDateKey(s: string)
  {
    |s| == 10
    && IsDigit(s[0]) && IsDigit(s[1]) && IsDigit(s[2]) && IsDigit(s[3])
    && s[4] == '-'
    && IsDigit(s[5]) && IsDigit(s[6])
    && s[7] == '-'
    && IsDigit(s[8]) && IsDigit(s[9])
  }

  /** Ruby's `[[:space:]]` on a UTF-8 string: the characters with Unicode's
   *  White_Space property, the no-break and ideographic spaces among them. */
  predicate IsRubySpace(c: char)
  {
    || '\t' <= c <= '\r'
    || c in {' ', '\U{85}', '\U{A0}', '\U{1680}', '\U{2028}', '\U{2029}', '\U{202F}', '\U{205F}', '\U{3000}'}
    || '\U{2000}' <= c <= '\U{200A}'
  }

  /** Active Support's `blank?` on a string, `/\A[[:space:]]*\z/`: nothing
   *  but white space. */
  predicate IsBlank(s: string)
  {
    forall i :: 0 <= i < |s| ==> IsRubySpace(s[i])
  }

  predicate EndsWith(s: string, suffix: string)
  {
    |suffix| <= |s| && s[|s| - |suffix|..] == suffix
  }

  /** Decimal rendering of a natural number without leading zeros. */
  function NatToString(n: nat): (s: string)
    ensures |s| >= 1
    ensures forall i :: 0 <= i < |s| ==> IsDigit(s[i])
    ensures DigitsValue(s) == n
    ensures n > 0 ==> s[0] != '0'
    decreases n
  {
    if n < 10 then [DigitChar(n)]
    else
      var prefix := NatToString(n / 10);
      var s := prefix + [DigitChar(n % 10)];
      assert s[..|s| - 1] == prefix;
      s
  }

  /** Decimal rendering of an integer, with a minus sign when negative
   *  (JavaScript's `String(n)` and Ruby's `to_s` of an integer). */
  function IntText(n: int): (s: string)
    ensures |s| >= 1
  {
    if n < 0 then "-" + NatToString(-n) else NatToString(n)
  }

  /** C's `isspace`: the white space Ruby's `to_i` skips. */
  predicate IsAsciiSpace(c: char)
  {
    c == ' ' || '\t' <= c <= '\r'
  }

  function LeadingAsciiSpaces(s: string): (n: nat)
    ensures n <= |s|
    ensures forall i :: 0 <= i < n ==> IsAsciiSpace(s[i])
    ensures n < |s| ==> !IsAsciiSpace(s[n])
  {
    if s != [] && IsAsciiSpace(s[0]) then 1 + LeadingAsciiSpaces(s[1..]) else 0
  }

  /** The digits Ruby's `to_i` reads at the head of `s`: a run of digits in
   *  which one underscore between two digits is passed over; anything else
   *  ends the run. */
  function DigitRun(s: string): (ds: string)
    ensures forall i :: 0 <= i < |ds| ==> IsDigit(ds[i])
    ensures |ds| <= |s|
    ensures ds != [] <==> s != [] && IsDigit(s[0])
  {
    if s == [] || !IsDigit(s[0]) then []
    else if |s| >= 3 && s[1] == '_' && IsDigit(s[2]) then [s[0]] + DigitRun(s[2..])
    else [s[0]] + DigitRun(s[1..])
  }

  /** A run made only of digits is read whole. */
  lemma {:induction false} DigitRunOfDigits(s: string)
    requires forall i :: 0 <= i < |s| ==> IsDigit(s[i])
    ensures DigitRun(s) == s
  {
    if s != [] {
      DigitRunOfDigits(s[1..]);
      assert s == [s[0]] + s[1..];
    }
  }

  /** Ruby's `String#to_i`: leading white space is skipped, then an optional
   *  sign, an optional `0d` prefix and the digit run; text without digits
   *  there reads as zero. */
  function RubyToI(s: string): (n: int)
    ensures s == [] ==> n == 0
    ensures s != [] && !IsAsciiSpace(s[0]) && !IsDigit(s[0]) && s[0] != '-' && s[0] != '+' ==> n == 0
  {
    var t := s[LeadingAsciiSpaces(s)..];
    var u := if t != [] && (t[0] == '-' || t[0] == '+') then t[1..] else t;
    var w := if |u| >= 2 && u[0] == '0' && (u[1] == 'd' || u[1] == 'D') then u[2..] else u;
    var m: int := DigitsValue(DigitRun(w));
    if t != [] && t[0] == '-' then -m else m
  }

  /** `to_i` reads back what `IntText` wrote: an id sent as the text of a
   *  number is that number. */
  lemma IntTextRoundTrip(n: int)
    ensures RubyToI(IntText(n)) == n
  {
    var m := if n < 0 then -n else n;
    var digits := NatToString(m);
    DigitRunOfDigits(digits);
    if n < 0 {
      assert IntText(n)[1..] == digits;
    }
  }

  /** `String(n).padStart(2, '0')` for a value below one hundred. */
  function Pad2(n: nat): (s: string)
    requires n < 100
    ensures |s| == 2 && IsDigit(s[0]) && IsDigit(s[1])
    ensures DigitValue(s[0]) * 10 + DigitValue(s[1]) == n
  {
    [DigitChar(n / 10), DigitChar(n % 10)]
  }

  /** `s.split(sep)`: the pieces between occurrences of `sep`, always at
   *  least one piece. */
  function Split(s: string, sep: char): (parts: seq<string>)
    ensures |parts| >= 1
    ensures forall i, j :: 0 <= i < |parts| && 0 <= j < |parts[i]| ==> parts[i][j] != sep
    decreases |s|
  {
    if s == [] then [[]]
    else if s[0] == sep then [[]] + Split(s[1..], sep)
    else
      var rest := Split(s[1..], sep);
      [[s[0]] + rest[0]] + rest[1..]
  }

  /** `parts.join(sep)` for a non-empty list of pieces. */
  function Join(parts: seq<string>, sep: char): string
    requires |parts| >= 1
    decreases |parts|
  {
    if |parts| == 1 then parts[0] else parts[0] + [sep] + Join(parts[1..], sep)
  }

  /** Splitting on a separator loses nothing: joining the pieces again gives
   *  back the original text. */
  lemma {:induction false} JoinSplit(s: string, sep: char)
    ensures Join(Split(s, sep), sep) == s
    decreases |s|
  {
    if s == [] {
    } else if s[0] == sep {
      JoinSplit(s[1..], sep);
      assert s == [sep] + s[1..];
    } else {
      var rest := Split(s[1..], sep);
      JoinSplit(s[1..], sep);
      if |rest| == 1 {
        assert s == [s[0]] + s[1..];
      } else {
        assert rest == [rest[0]] + rest[1..];
        assert Join(rest, sep) == rest[0] + [sep] + Join(rest[1..], sep);
        assert s == [s[0]] + s[1..];
      }
    }
  }

  /** Removing every occurrence of one character (`s.replace(/\r/g, '')`). */
  function RemoveAll(s: string, c: char): (r: string)
    ensures forall i :: 0 <= i < |r| ==> r[i] != c
    ensures |r| <= |s|
  {
    if s == [] then [] else (if s[0] == c then [] else [s[0]]) + RemoveAll(s[1..], c)
  }
}
