/** `urllib.parse.urlencode` over an ordered list of key/value pairs, with its
    default `quote_plus` escaping and no extra safe characters. */
module UrlEncode {
  import opened Text
  import Seqs

  /** Characters `quote` never escapes: ASCII letters, digits and `_.-~`. */
  predicate IsUnreserved(c: char) {
    || ('a' <= c <= 'z') || ('A' <= c <= 'Z') || IsDigit(c)
    || c == '_' || c == '.' || c == '-' || c == '~'
  }

  predicate IsUpperHex(c: char) {
    IsDigit(c) || ('A' <= c <= 'F')
  }

  /** What may appear in `quote_plus` output. */
  predicate IsEncodedChar(c: char) {
    IsUnreserved(c) || c == '+' || c == '%'
  }

  function UpperHexDigit(d: nat): (c: char)
    requires d < 16
    ensures IsUpperHex(c) && IsEncodedChar(c)
  {
    if d < 10 then DigitChar(d) else ('A' as int + d - 10) as char
  }

  /** The UTF-8 encoding of one Unicode scalar value. */
  function Utf8(c: char): (bytes: seq<nat>)
    ensures 1 <= |bytes| <= 4
    ensures forall i :: 0 <= i < |bytes| ==> bytes[i] < 256
    ensures c as int < 0x80 <==> |bytes| == 1
  {
    var n := c as int;
    if n < 0x80 then [n]
    else if n < 0x800 then [0xC0 + n / 64, 0x80 + n % 64]
    else if n < 0x10000 then [0xE0 + n / 4096, 0x80 + (n / 64) % 64, 0x80 + n % 64]
    else [0xF0 + n / 262144, 0x80 + (n / 4096) % 64, 0x80 + (n / 64) % 64, 0x80 + n % 64]
  }

  /** `%` and the two upper-case hex digits of a byte, high digit first. */
  function ByteEscape(b: nat): (r: string)
    requires b < 256
    ensures |r| == 3
  {
    ['%', UpperHexDigit(b / 16), UpperHexDigit(b % 16)]
  }

  /** `r` is the escapes of `bytes`, three characters per byte, in order. */
  predicate EscapesEach(r: string, bytes: seq<nat>)
    requires forall i :: 0 <= i < |bytes| ==> bytes[i] < 256
  {
    |r| == 3 * |bytes| && forall k :: 0 <= k < |bytes| ==> r[3 * k..3 * k + 3] == ByteEscape(bytes[k])
  }

  function PercentBytes(bytes: seq<nat>): (r: string)
    requires forall i :: 0 <= i < |bytes| ==> bytes[i] < 256
    ensures EscapesEach(r, bytes)
    ensures forall i :: 0 <= i < |r| ==> IsEncodedChar(r[i])
  {
    if |bytes| == 0 then ""
    else
      var tail := PercentBytes(bytes[1..]);
      EscapesEachCons(bytes, tail);
      ByteEscape(bytes[0]) + tail
  }

  lemma EscapesEachCons(bytes: seq<nat>, tail: string)
    requires |bytes| > 0 && forall i :: 0 <= i < |bytes| ==> bytes[i] < 256
    requires EscapesEach(tail, bytes[1..])
    ensures EscapesEach(ByteEscape(bytes[0]) + tail, bytes)
  {
    var head := ByteEscape(bytes[0]);
    forall k | 0 <= k < |bytes| ensures (head + tail)[3 * k..3 * k + 3] == ByteEscape(bytes[k]) {
      if k > 0 {
        TripleAfterHead(head, tail, k);
        assert bytes[1..][k - 1] == bytes[k];
      }
    }
  }

  lemma TripleAfterHead(head: string, tail: string, k: nat)
    requires |head| == 3 && 1 <= k && 3 * k + 3 <= |head| + |tail|
    ensures (head + tail)[3 * k..3 * k + 3] == tail[3 * (k - 1)..3 * (k - 1) + 3]
  {
    var j := k - 1;
    assert 3 * k == 3 * j + 3;
  }

  /** The hex digits read back as the byte. */
  lemma UpperHexDigitsReadBack(b: nat)
    requires b < 256
    ensures UpperHexValue(UpperHexDigit(b / 16)) * 16 + UpperHexValue(UpperHexDigit(b % 16)) == b
  {
  }

  function UpperHexValue(c: char): (v: nat)
    requires IsUpperHex(c)
    ensures v < 16
  {
    if IsDigit(c) then c as nat - '0' as nat else c as nat - 'A' as nat + 10
  }

  /** `quote_plus` of one character. */
  function QuoteChar(c: char): (r: string)
    ensures |r| == 1 || |r| % 3 == 0
    ensures forall i :: 0 <= i < |r| ==> IsEncodedChar(r[i])
    ensures IsUnreserved(c) ==> r == [c]
    ensures c == ' ' ==> r == "+"
    // Anything else is escaped byte by byte as `%XX` over its UTF-8 encoding.
    ensures !IsUnreserved(c) && c != ' ' ==> EscapesEach(r, Utf8(c))
  {
    if IsUnreserved(c) then [c]
    else if c == ' ' then "+"
    else PercentBytes(Utf8(c))
  }

  /** `quote_plus(s, safe='')`. */
  function QuotePlus(s: string): (r: string)
    ensures |r| >= |s|
    ensures forall i :: 0 <= i < |r| ==> IsEncodedChar(r[i])
    ensures (forall i :: 0 <= i < |s| ==> IsUnreserved(s[i])) ==> r == s
    // Text of one character is that character's escape; with
    // `QuotePlusConcat` this fixes the encoding of every text.
    ensures |s| == 1 ==> r == QuoteChar(s[0])
  {
    if |s| == 0 then "" else QuoteChar(s[0]) + QuotePlus(s[1..])
  }

  /** Concatenation is preserved: each character is escaped on its own. */
  lemma {:induction false} QuotePlusConcat(a: string, b: string)
    ensures QuotePlus(a + b) == QuotePlus(a) + QuotePlus(b)
  {
    if |a| > 0 {
      var c := a[0];
      var rest := a[1..];
      assert (a + b)[0] == c && (a + b)[1..] == rest + b;
      QuotePlusConcat(rest, b);
      assert QuotePlus(a + b) == QuoteChar(c) + QuotePlus(rest + b);
      assert QuotePlus(a) == QuoteChar(c) + QuotePlus(rest);
      Seqs.ConcatAssoc(QuoteChar(c), QuotePlus(rest), QuotePlus(b));
    } else {
      assert a + b == b;
    }
  }

  /** One `key=value` piece, both sides quoted. */
  function EncodePair(pair: (string, string)): (r: string)
    ensures |r| >= 1
  {
    QuotePlus(pair.0) + "=" + QuotePlus(pair.1)
  }

  predicate IsAmpersand(c: char) {
    c == '&'
  }

  predicate IsEquals(c: char) {
    c == '='
  }

  /** `urlencode(pairs)`: the quoted `key=value` pieces joined by `&`. */
  function Encode(pairs: seq<(string, string)>): (r: string)
    ensures |pairs| == 0 <==> r == ""
    // The query splits at `&` into one piece per pair, in order, and each
    // piece splits at `=` into the quoted key and the quoted value.
    ensures |pairs| > 0 ==> |Split(r, IsAmpersand)| == |pairs|
    ensures |pairs| > 0 ==> forall k :: 0 <= k < |pairs| ==>
      Split(Split(r, IsAmpersand)[k], IsEquals) == [QuotePlus(pairs[k].0), QuotePlus(pairs[k].1)]
  {
    var pieces := seq(|pairs|, k requires 0 <= k < |pairs| => EncodePair(pairs[k]));
    JoinedPairsSplitBack(pairs, pieces);
    Join("&", pieces)
  }

  lemma JoinedPairsSplitBack(pairs: seq<(string, string)>, pieces: seq<string>)
    requires |pieces| == |pairs|
    requires forall k :: 0 <= k < |pairs| ==> pieces[k] == EncodePair(pairs[k])
    ensures |pairs| == 0 <==> Join("&", pieces) == ""
    ensures |pairs| > 0 ==> Split(Join("&", pieces), IsAmpersand) == pieces
    ensures forall k :: 0 <= k < |pairs| ==>
      Split(pieces[k], IsEquals) == [QuotePlus(pairs[k].0), QuotePlus(pairs[k].1)]
  {
    if |pairs| > 0 {
      JoinOfNonEmptyHead(pieces, "&");
      forall k | 0 <= k < |pairs| ensures NoCharIn(pieces[k], IsAmpersand) {
        PairHasNoAmpersand(pairs[k]);
      }
      SplitJoin(pieces, '&', IsAmpersand);
      forall k | 0 <= k < |pairs|
        ensures Split(pieces[k], IsEquals) == [QuotePlus(pairs[k].0), QuotePlus(pairs[k].1)]
      {
        PairSplitsAtEquals(pairs[k]);
      }
    }
  }

  lemma JoinOfNonEmptyHead(parts: seq<string>, sep: string)
    requires |parts| >= 1 && parts[0] != ""
    ensures Join(sep, parts) != ""
  {
    if |parts| > 1 {
      assert Join(sep, parts) == parts[0] + sep + Join(sep, parts[1..]);
    }
  }

  /** Quoted text holds neither `&` nor `=`. */
  lemma QuotedHasNeither(s: string)
    ensures NoCharIn(QuotePlus(s), IsAmpersand) && NoCharIn(QuotePlus(s), IsEquals)
  {
  }

  lemma PairHasNoAmpersand(pair: (string, string))
    ensures NoCharIn(EncodePair(pair), IsAmpersand)
  {
    QuotedHasNeither(pair.0);
    QuotedHasNeither(pair.1);
    NoCharInConcat(QuotePlus(pair.0), "=", IsAmpersand);
    NoCharInConcat(QuotePlus(pair.0) + "=", QuotePlus(pair.1), IsAmpersand);
  }

  lemma PairSplitsAtEquals(pair: (string, string))
    ensures Split(EncodePair(pair), IsEquals) == [QuotePlus(pair.0), QuotePlus(pair.1)]
  {
    var parts := [QuotePlus(pair.0), QuotePlus(pair.1)];
    QuotedHasNeither(pair.0);
    QuotedHasNeither(pair.1);
    assert Join("=", parts) == EncodePair(pair) by {
      assert Join("=", parts[1..]) == parts[1];
    }
    SplitJoin(parts, '=', IsEquals);
  }

  lemma QuoteComma()
    ensures QuotePlus(",") == "%2C"
  {
    assert Utf8(',') == [44];
    assert UpperHexDigit(2) == '2';
    assert UpperHexDigit(12) == 'C';
    assert PercentBytes([44]) == ['%', '2', 'C'] + PercentBytes([]);
    assert QuotePlus(",") == QuoteChar(',') + QuotePlus("");
  }

  /** The one escape the bot's own query values need: in a comma-joined
      list of plain names, every comma becomes `%2C` and nothing else
      changes. */
  lemma {:induction false} CommaIsEscaped(names: seq<string>)
    requires forall k, i :: 0 <= k < |names| && 0 <= i < |names[k]| ==> IsUnreserved(names[k][i])
    ensures QuotePlus(Join(",", names)) == Join("%2C", names)
  {
    if |names| > 1 {
      var rest := Join(",", names[1..]);
      CommaIsEscaped(names[1..]);
      QuotePlusConcat(names[0] + ",", rest);
      QuotePlusConcat(names[0], ",");
      QuoteComma();
    }
  }
}
