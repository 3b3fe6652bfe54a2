/**
 * Percent-encoding as the browser and Node.js perform it: each character is
 * turned into its UTF-8 bytes and every byte outside a safe set is written as
 * `%XX` with upper-case hex digits. Two safe sets are used by the site:
 * `encodeURIComponent` (the unsubscribe link in the newsletter footer) and the
 * application/x-www-form-urlencoded serializer behind `URLSearchParams.toString`
 * (the blog filter's query string), which also writes a space as `+`.
 */
module Url {

  /** The UTF-8 encoding of one Unicode scalar value. */
  function Utf8(c: char): (r: seq<int>)
    ensures 1 <= |r| <= 4
    ensures forall k :: 0 <= k < |r| ==> 0 <= r[k] < 256
    ensures (|r| == 1) == (c as int < 0x80) && (|r| == 1 ==> r[0] == c as int)
  {
    var n := c as int;
    if n < 0x80 then [n]
    else if n < 0x800 then [0xC0 + n / 64, 0x80 + n % 64]
    else if n < 0x10000 then [0xE0 + n / 4096, 0x80 + (n / 64) % 64, 0x80 + n % 64]
    else [0xF0 + n / 262144, 0x80 + (n / 4096) % 64, 0x80 + (n / 64) % 64, 0x80 + n % 64]
  }

  function HexDigit(d: int): (r: char)
    requires 0 <= d < 16
    ensures IsAsciiAlnum(r)
  {
    if d < 10 then ('0' as int + d) as char else ('A' as int + d - 10) as char
  }

  /** `%XX` for one byte. */
  function PercentByte(b: int): (r: string)
    requires 0 <= b < 256
    ensures |r| == 3 && r[0] == '%' && IsAsciiAlnum(r[1]) && IsAsciiAlnum(r[2])
  {
    ['%', HexDigit(b / 16), HexDigit(b % 16)]
  }

  function PercentBytes(bs: seq<int>): (r: string)
    requires forall k :: 0 <= k < |bs| ==> 0 <= bs[k] < 256
    ensures |r| == 3 * |bs|
    ensures forall k :: 0 <= k < |r| ==> r[k] == '%' || IsAsciiAlnum(r[k])
  {
    if bs == [] then [] else PercentByte(bs[0]) + PercentBytes(bs[1..])
  }

  predicate IsAsciiAlnum(c: char) {
    ('0' <= c <= '9') || ('A' <= c <= 'Z') || ('a' <= c <= 'z')
  }

  /** The characters `encodeURIComponent` leaves as they are. */
  predicate IsUriUnreserved(c: char) {
    IsAsciiAlnum(c) || c in "-_.!~*'()"
  }

  /** The characters the form-urlencoded serializer leaves as they are. */
  predicate IsFormSafe(c: char) {
    IsAsciiAlnum(c) || c in "*-._"
  }

  /** `encodeURIComponent(s)`. */
  function EncodeUriComponent(s: string): (r: string)
    ensures forall k :: 0 <= k < |r| ==> IsUriUnreserved(r[k]) || r[k] == '%'
  {
    if s == [] then []
    else
      (if IsUriUnreserved(s[0]) then [s[0]] else PercentBytes(Utf8(s[0])))
      + EncodeUriComponent(s[1..])
  }

  /** One value as `URLSearchParams.toString` writes it. */
  function FormEncode(s: string): (r: string)
    ensures forall k :: 0 <= k < |r| ==> IsFormSafe(r[k]) || r[k] == '%' || r[k] == '+'
  {
    if s == [] then []
    else
      (if s[0] == ' ' then "+" else if IsFormSafe(s[0]) then [s[0]] else PercentBytes(Utf8(s[0])))
      + FormEncode(s[1..])
  }

  /** An encoded value never contains a character that ends a query parameter
      or starts a new one, so it cannot inject a parameter into a URL. */
  lemma EncodedValuesHaveNoDelimiters(s: string)
    ensures '&' !in EncodeUriComponent(s) && '=' !in EncodeUriComponent(s) && '#' !in EncodeUriComponent(s)
    ensures '&' !in FormEncode(s) && '=' !in FormEncode(s) && '#' !in FormEncode(s)
  {
    UriEncodedHasNoDelimiters(s);
    FormEncodedHasNoDelimiters(s);
  }

  lemma UriEncodedHasNoDelimiters(s: string)
    ensures forall k :: 0 <= k < |EncodeUriComponent(s)| ==> !IsDelimiter(EncodeUriComponent(s)[k])
  {
    var r := EncodeUriComponent(s);
    forall k | 0 <= k < |r| ensures !IsDelimiter(r[k]) {
      assert IsUriUnreserved(r[k]) || r[k] == '%';
    }
  }

  lemma FormEncodedHasNoDelimiters(s: string)
    ensures forall k :: 0 <= k < |FormEncode(s)| ==> !IsDelimiter(FormEncode(s)[k])
  {
    var r := FormEncode(s);
    forall k | 0 <= k < |r| ensures !IsDelimiter(r[k]) {
      assert IsFormSafe(r[k]) || r[k] == '%' || r[k] == '+';
    }
  }

  /** The characters that separate or end query parameters. */
  predicate IsDelimiter(c: char) {
    c == '&' || c == '=' || c == '#'
  }

  /** Text made only of unreserved characters is its own encoding. */
  lemma {:induction false} EncodeUnreservedIsIdentity(s: string)
    requires forall k :: 0 <= k < |s| ==> IsUriUnreserved(s[k])
    ensures EncodeUriComponent(s) == s
  {
    if s != [] {
      EncodeUnreservedIsIdentity(s[1..]);
    }
  }
}
