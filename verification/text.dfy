/** String helpers with Python semantics: `str.strip`, `str.lower`/`upper`,
    `str(int)`, `int(str)`, `sep.join(parts)` and splitting at separator
    characters. */
module Text {
  import opened Wrappers

  /** The characters for which Python's `str.isspace()` holds. */
  predicate IsSpace(c: char) {
    var n := c as int;
    || (0x09 <= n <= 0x0D) || (0x1C <= n <= 0x20)
    || n == 0x85 || n == 0xA0 || n == 0x1680
    || (0x2000 <= n <= 0x200A)
    || n == 0x2028 || n == 0x2029 || n == 0x202F || n == 0x205F || n == 0x3000
  }

  /** The characters at which Python's `str.splitlines()` breaks a line. */
  predicate IsLineBreak(c: char) {
    var n := c as int;
    || (0x0A <= n <= 0x0D) || (0x1C <= n <= 0x1E)
    || n == 0x85 || n == 0x2028 || n == 0x2029
  }

  lemma LineBreakIsSpace(c: char)
    requires IsLineBreak(c)
    ensures IsSpace(c)
  {
  }

  predicate IsDigit(c: char) {
    '0' <= c <= '9'
  }

  predicate IsAsciiLower(c: char) {
    'a' <= c <= 'z'
  }

  /** Number of leading characters of `s` satisfying `drop`. */
  function LeadCount(s: string, drop: char -> bool): (k: nat)
    ensures k <= |s|
    ensures forall i :: 0 <= i < k ==> drop(s[i])
    ensures k < |s| ==> !drop(s[k])
  {
    if |s| == 0 || !drop(s[0]) then 0 else 1 + LeadCount(s[1..], drop)
  }

  /** A prefix made only of dropped characters is counted whole. */
  lemma {:induction false} LeadCountPast(x: string, y: string, drop: char -> bool)
    requires forall i :: 0 <= i < |x| ==> drop(x[i])
    ensures LeadCount(x + y, drop) == |x| + LeadCount(y, drop)
    decreases |x|
  {
    if |x| > 0 {
      assert (x + y)[0] == x[0];
      assert (x + y)[1..] == x[1..] + y;
      LeadCountPast(x[1..], y, drop);
    } else {
      assert x + y == y;
    }
  }

  /** A run that ends inside `x` is not lengthened by what follows. */
  lemma {:induction false} LeadCountStops(x: string, y: string, drop: char -> bool)
    requires LeadCount(x, drop) < |x|
    ensures LeadCount(x + y, drop) == LeadCount(x, drop)
    decreases |x|
  {
    assert (x + y)[0] == x[0];
    if drop(x[0]) {
      assert (x + y)[1..] == x[1..] + y;
      LeadCountStops(x[1..], y, drop);
    }
  }

  /** Number of trailing characters of `s` satisfying `drop`. */
  function TrailCount(s: string, drop: char -> bool): (k: nat)
    ensures k <= |s|
    ensures forall i :: |s| - k <= i < |s| ==> drop(s[i])
    ensures k < |s| ==> !drop(s[|s| - k - 1])
  {
    if |s| == 0 || !drop(s[|s| - 1]) then 0 else 1 + TrailCount(s[..|s| - 1], drop)
  }

  /** Python's `s.strip(chars)`: the longest prefix and suffix of characters
      satisfying `drop` removed. */
  function Trim(s: string, drop: char -> bool): (r: string)
    ensures |r| <= |s| - LeadCount(s, drop)
    ensures |r| > 0 ==> !drop(r[0]) && !drop(r[|r| - 1])
    ensures r == s[LeadCount(s, drop)..LeadCount(s, drop) + |r|]
    ensures forall i :: LeadCount(s, drop) + |r| <= i < |s| ==> drop(s[i])
  {
    var t := s[LeadCount(s, drop)..];
    t[..|t| - TrailCount(t, drop)]
  }

  /** Python's `s.rstrip(chars)`. */
  function TrimEnd(s: string, drop: char -> bool): (r: string)
    ensures |r| <= |s| && r == s[..|r|]
    ensures |r| > 0 ==> !drop(r[|r| - 1])
    ensures forall i :: |r| <= i < |s| ==> drop(s[i])
  {
    s[..|s| - TrailCount(s, drop)]
  }

  lemma TrimNothingToDrop(s: string, drop: char -> bool)
    requires forall i :: 0 <= i < |s| ==> !drop(s[i])
    ensures Trim(s, drop) == s
  {
    var t := s[LeadCount(s, drop)..];
    assert t == s;
    assert TrailCount(t, drop) == 0;
  }

  /** A string whose first and last characters are kept is its own trim. */
  lemma TrimKeptEnds(s: string, drop: char -> bool)
    requires |s| == 0 || (!drop(s[0]) && !drop(s[|s| - 1]))
    ensures Trim(s, drop) == s
  {
    if |s| > 0 {
      assert LeadCount(s, drop) == 0;
      assert TrailCount(s, drop) == 0;
    }
  }

  /** Python's `str.strip()` with no argument. */
  function Strip(s: string): (r: string)
    ensures |r| <= |s|
    ensures |r| > 0 ==> !IsSpace(r[0]) && !IsSpace(r[|r| - 1])
  {
    Trim(s, IsSpace)
  }

  predicate IsStripped(s: string) {
    forall i :: 0 <= i < |s| ==> !IsSpace(s[i])
  }

  lemma StripOfStripped(s: string)
    requires IsStripped(s)
    ensures Strip(s) == s
  {
    TrimNothingToDrop(s, IsSpace);
  }

  /** Python's `str.lower()` on one character. Besides ASCII, the only
      characters whose lower-case form contains an ASCII letter are the
      Kelvin sign (to `k`) and capital I with dot above (to `i` followed by a
      combining dot); both are mapped. Every other character is kept, which
      agrees with Python wherever the comparison or filtering done on the
      result only looks at ASCII. */
  function LowerChar(c: char): (r: string)
    ensures |r| >= 1
    ensures 'A' <= c <= 'Z' ==> r == [(c as int + 32) as char]
    ensures IsAsciiLower(c) || IsDigit(c) ==> r == [c]
  {
    if 'A' <= c <= 'Z' then [(c as int + 32) as char]
    else if c == '\U{212A}' then "k"
    else if c == '\U{0130}' then "i\U{0307}"
    else [c]
  }

  function Lower(s: string): string {
    if |s| == 0 then "" else LowerChar(s[0]) + Lower(s[1..])
  }

  /** Python's `str.upper()` restricted to ASCII letters. */
  function UpperChar(c: char): (r: char)
    ensures !IsAsciiLower(r)
    ensures IsAsciiLower(c) ==> 'A' <= r <= 'Z' && r as int == c as int - 32
    ensures !IsAsciiLower(c) ==> r == c
  {
    if IsAsciiLower(c) then (c as int - 32) as char else c
  }

  function Upper(s: string): (r: string)
    ensures |r| == |s|
    ensures forall i :: 0 <= i < |s| ==> r[i] == UpperChar(s[i])
  {
    seq(|s|, i requires 0 <= i < |s| => UpperChar(s[i]))
  }

  /** `lower()` of ASCII text: each capital becomes its small letter and
      every other ASCII character is kept. */
  lemma {:induction false} LowerOfAscii(s: string, t: string)
    requires |s| == |t|
    requires forall i :: 0 <= i < |s| ==>
      || ('A' <= s[i] <= 'Z' && t[i] == (s[i] as int + 32) as char)
      || (s[i] as int < 128 && !('A' <= s[i] <= 'Z') && t[i] == s[i])
    ensures Lower(s) == t
  {
    if |s| > 0 {
      LowerOfAscii(s[1..], t[1..]);
      assert t == [t[0]] + t[1..];
    }
  }

  lemma {:induction false} LowerKeepsLowerAlnum(s: string)
    requires forall i :: 0 <= i < |s| ==> IsAsciiLower(s[i]) || IsDigit(s[i]) || s[i] == '-'
    ensures Lower(s) == s
  {
    if |s| > 0 {
      LowerKeepsLowerAlnum(s[1..]);
    }
  }

  // ---------------------------------------------------------------------
  // Integers: Python's str(int) and int(str).

  function DigitChar(d: nat): (c: char)
    requires d < 10
    ensures IsDigit(c)
  {
    ('0' as int + d) as char
  }

  function DigitValue(c: char): (d: nat)
    requires IsDigit(c)
    ensures d < 10 && DigitChar(d) == c
  {
    c as int - '0' as int
  }

  /** Decimal digits of `n`, most significant first, without leading zeros. */
  function NatToString(n: nat): (r: string)
    ensures |r| >= 1
    ensures forall i :: 0 <= i < |r| ==> IsDigit(r[i])
    ensures n > 0 ==> r[0] != '0'
  {
    if n < 10 then [DigitChar(n)] else NatToString(n / 10) + [DigitChar(n % 10)]
  }

  /** Python's `str(n)` for an int. */
  function IntToString(n: int): (r: string)
    ensures |r| >= 1
    ensures forall i :: 0 <= i < |r| ==> IsDigit(r[i]) || r[i] == '-'
  {
    if n < 0 then "-" + NatToString(-n) else NatToString(n)
  }

  /** The digit string of a Python integer literal body: ASCII digits, with a
      single underscore allowed between two digits. */
  predicate IsDigitBody(b: string) {
    && |b| > 0
    && IsDigit(b[0])
    && IsDigit(b[|b| - 1])
    && (forall i :: 0 <= i < |b| ==> IsDigit(b[i]) || b[i] == '_')
    && (forall i :: 0 <= i < |b| - 1 ==> b[i] == '_' ==> b[i + 1] != '_')
  }

  /** Value of a string of digits and underscores, underscores ignored. */
  function DigitsValue(b: string): nat
    requires forall i :: 0 <= i < |b| ==> IsDigit(b[i]) || b[i] == '_'
  {
    if |b| == 0 then 0
    else if b[|b| - 1] == '_' then DigitsValue(b[..|b| - 1])
    else DigitsValue(b[..|b| - 1]) * 10 + DigitValue(b[|b| - 1])
  }

  /** Python's `int(s)` for a str `s` in base 10: surrounding whitespace is
      ignored, one optional sign, then a digit body; anything else is a
      `ValueError`, here `None`. */
  function ParseInt(s: string): (r: Option<int>)
    ensures r.Some? ==> |Strip(s)| > 0
  {
    var t := Strip(s);
    if |t| == 0 then None
    else
      var neg := t[0] == '-';
      var body := if t[0] == '-' || t[0] == '+' then t[1..] else t;
      if !IsDigitBody(body) then None
      else if neg then Some(-(DigitsValue(body) as int))
      else Some(DigitsValue(body) as int)
  }

  lemma {:induction false} DigitsValueOfNatToString(n: nat)
    ensures DigitsValue(NatToString(n)) == n
  {
    var r := NatToString(n);
    if n >= 10 {
      DigitsValueOfNatToString(n / 10);
      assert r[..|r| - 1] == NatToString(n / 10);
    }
  }

  lemma NatToStringIsDigitBody(n: nat)
    ensures IsDigitBody(NatToString(n))
  {
  }

  /** The printed form of an integer has no white space to strip. */
  lemma IntToStringIsStripped(n: int)
    ensures Strip(IntToString(n)) == IntToString(n)
  {
    var s := IntToString(n);
    assert IsStripped(s) by {
      forall i | 0 <= i < |s| ensures !IsSpace(s[i]) {
        assert IsDigit(s[i]) || s[i] == '-';
      }
    }
    StripOfStripped(s);
  }

  /** `int(str(n)) == n`: the printed form of an integer parses back to it. */
  lemma ParseIntOfIntToString(n: int)
    ensures ParseInt(IntToString(n)) == Some(n)
  {
    var s := IntToString(n);
    var m: nat := if n < 0 then -n else n;
    var digits := NatToString(m);
    NatToStringIsDigitBody(m);
    DigitsValueOfNatToString(m);
    IntToStringIsStripped(n);
    if n < 0 {
      assert s[1..] == digits;
    } else {
      assert s == digits && IsDigit(s[0]);
    }
  }

  // ---------------------------------------------------------------------
  // Joining and splitting.

  /** Python's `sep.join(parts)`. */
  function Join(sep: string, parts: seq<string>): string {
    if |parts| == 0 then ""
    else if |parts| == 1 then parts[0]
    else parts[0] + sep + Join(sep, parts[1..])
  }

  /** The pieces of `s` between characters satisfying `isSep`; like Python's
      `s.split(sep)` for a single separator, an empty string gives `[""]`. */
  function Split(s: string, isSep: char -> bool): (r: seq<string>)
    ensures |r| >= 1
    ensures forall k :: 0 <= k < |r| ==> forall i :: 0 <= i < |r[k]| ==> !isSep(r[k][i])
  {
    if |s| == 0 then [""]
    else if isSep(s[0]) then [""] + Split(s[1..], isSep)
    else
      var rest := Split(s[1..], isSep);
      [[s[0]] + rest[0]] + rest[1..]
  }

  predicate NoCharIn(s: string, p: char -> bool) {
    forall i :: 0 <= i < |s| ==> !p(s[i])
  }

  lemma NoCharInConcat(a: string, b: string, p: char -> bool)
    ensures NoCharIn(a + b, p) <==> NoCharIn(a, p) && NoCharIn(b, p)
  {
    if NoCharIn(a, p) && NoCharIn(b, p) {
      forall i | 0 <= i < |a + b| ensures !p((a + b)[i]) {
        if i >= |a| {
          assert (a + b)[i] == b[i - |a|];
        }
      }
    }
    if NoCharIn(a + b, p) {
      forall i | 0 <= i < |a| ensures !p(a[i]) {
        assert (a + b)[i] == a[i];
      }
      forall i | 0 <= i < |b| ensures !p(b[i]) {
        assert (a + b)[|a| + i] == b[i];
      }
    }
  }

  lemma {:induction false} SplitPrefix(a: string, rest: string, isSep: char -> bool)
    requires NoCharIn(a, isSep)
    ensures Split(a + rest, isSep) ==
      [a + Split(rest, isSep)[0]] + Split(rest, isSep)[1..]
  {
    if |a| > 0 {
      assert (a + rest)[1..] == a[1..] + rest;
      assert (a + rest)[0] == a[0];
      SplitPrefix(a[1..], rest, isSep);
      assert [a[0]] + (a[1..] + Split(rest, isSep)[0]) == a + Split(rest, isSep)[0];
    } else {
      assert a + rest == rest;
      assert a + Split(rest, isSep)[0] == Split(rest, isSep)[0];
    }
  }

  /** Splitting a join at its one-character separator gives the parts back,
      provided no part contains a separator character. */
  lemma {:induction false} SplitJoin(parts: seq<string>, c: char, isSep: char -> bool)
    requires |parts| >= 1
    requires isSep(c)
    requires forall k :: 0 <= k < |parts| ==> NoCharIn(parts[k], isSep)
    ensures Split(Join([c], parts), isSep) == parts
  {
    if |parts| == 1 {
      SplitPrefix(parts[0], "", isSep);
      assert parts[0] + "" == parts[0];
    } else {
      var tail := Join([c], parts[1..]);
      SplitJoin(parts[1..], c, isSep);
      assert Join([c], parts) == parts[0] + ([c] + tail);
      SplitPrefix(parts[0], [c] + tail, isSep);
      assert ([c] + tail)[1..] == tail;
      assert Split([c] + tail, isSep) == [""] + parts[1..];
      assert parts[0] + "" == parts[0];
    }
  }
}
