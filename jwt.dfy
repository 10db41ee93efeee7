/** The page's `parseJwt` helper: it selects the payload segment of a compact JWS/JWT
    (RFC 7515 section 7.1, RFC 7519 section 3), rewrites it from the base64url alphabet
    (RFC 4648 section 5) to the standard base64 alphabet (RFC 4648 section 4), and hands the
    bytes that `atob` produces to `decodeURIComponent` as `%XX` escapes before `JSON.parse`.
    `atob`, `decodeURIComponent` and `JSON.parse` are browser routines whose internals are not
    modelled; each is a parameter that returns None where the routine throws. */
module Jwt {
  import opened Wrappers
  import opened JsStrings

  /** What `JSON.parse` returns, reduced to what the page reads from it: `null`, or an object
      seen through its string-valued properties. A number, boolean, string or array answers
      every property read here with `undefined`, exactly as an object without those
      properties does, so it is represented as an `Object` without them. */
  datatype JsonValue = Null | Object(fields: map<string, string>)

  /** The `{}` that `parseJwt` falls back to. */
  const EmptyObject: JsonValue := Object(map[])

  /** `token.split('.')[1]`, or None where that index is `undefined` (the later `.replace`
      then throws and `parseJwt` falls back to `{}`). */
  function PayloadSegment(token: string): (r: Option<string>)
    ensures r.Some? <==> '.' in token
    ensures r.Some? ==> '.' !in r.value
  {
    SplitHasSecondIff(token, '.');
    var parts := Split(token, '.');
    if |parts| >= 2 then Some(parts[1]) else None
  }

  /** In a compact token `header.payload.signature` (or a bare `header.payload`) the selected
      segment is the payload, whatever the header and the signature are. */
  lemma {:induction false} PayloadSegmentOfCompact(header: string, payload: string, signature: string)
    requires '.' !in header && '.' !in payload
    ensures PayloadSegment(header + "." + payload + "." + signature) == Some(payload)
    ensures PayloadSegment(header + "." + payload) == Some(payload)
  {
    assert header + "." + payload + "." + signature == header + ['.'] + (payload + ['.'] + signature);
    SplitAfterPiece(header, '.', payload + ['.'] + signature);
    SplitAfterPiece(payload, '.', signature);
    SplitAfterPiece(header, '.', payload);
    SplitNoSeparator(payload, '.');
  }

  predicate IsBase64UrlChar(c: char) {
    'A' <= c <= 'Z' || 'a' <= c <= 'z' || '0' <= c <= '9' || c == '-' || c == '_'
  }

  predicate IsBase64Char(c: char) {
    'A' <= c <= 'Z' || 'a' <= c <= 'z' || '0' <= c <= '9' || c == '+' || c == '/'
  }

  /** `base64Url.replace(/-/g, '+').replace(/_/g, '/')`. */
  function ToStandardAlphabet(s: string): (r: string)
    ensures |r| == |s|
    ensures forall i :: 0 <= i < |s| ==>
      r[i] == (if s[i] == '-' then '+' else if s[i] == '_' then '/' else s[i])
  {
    ReplaceAll(ReplaceAll(s, '-', '+'), '_', '/')
  }

  /** The base64url encoder's side of the substitution, `+` to `-` and `/` to `_`. */
  function ToUrlAlphabet(s: string): string {
    ReplaceAll(ReplaceAll(s, '+', '-'), '/', '_')
  }

  /** The substitution keeps the length, turns `-` into `+` and `_` into `/`, and leaves every
      other character where it was; it maps the base64url alphabet onto the standard one. */
  lemma ToStandardAlphabetSpec(s: string)
    ensures |ToStandardAlphabet(s)| == |s|
    ensures forall i :: 0 <= i < |s| ==>
      ToStandardAlphabet(s)[i] == (if s[i] == '-' then '+' else if s[i] == '_' then '/' else s[i])
    ensures '-' !in ToStandardAlphabet(s) && '_' !in ToStandardAlphabet(s)
    ensures (forall i :: 0 <= i < |s| ==> IsBase64UrlChar(s[i])) ==>
      forall i :: 0 <= i < |s| ==> IsBase64Char(ToStandardAlphabet(s)[i])
  {
    var r := ToStandardAlphabet(s);
    forall i | 0 <= i < |s| ensures r[i] == (if s[i] == '-' then '+' else if s[i] == '_' then '/' else s[i]) {
    }
    assert '-' !in r by {
      forall i | 0 <= i < |r| ensures r[i] != '-' { }
    }
    assert '_' !in r by {
      forall i | 0 <= i < |r| ensures r[i] != '_' { }
    }
  }

  /** On a base64url text (which has no `+` or `/`) the substitution is undone by the
      encoder's, and on a standard base64 text (no `-` or `_`) the other way round. */
  lemma AlphabetRoundTrip(s: string)
    ensures '+' !in s && '/' !in s ==> ToUrlAlphabet(ToStandardAlphabet(s)) == s
    ensures '-' !in s && '_' !in s ==> ToStandardAlphabet(ToUrlAlphabet(s)) == s
  {
    if '+' !in s && '/' !in s {
      var r := ToUrlAlphabet(ToStandardAlphabet(s));
      assert |r| == |s|;
      forall i | 0 <= i < |s| ensures r[i] == s[i] {
        assert s[i] != '+' && s[i] != '/';
      }
    }
    if '-' !in s && '_' !in s {
      var r := ToStandardAlphabet(ToUrlAlphabet(s));
      assert |r| == |s|;
      forall i | 0 <= i < |s| ensures r[i] == s[i] {
        assert s[i] != '-' && s[i] != '_';
      }
    }
  }

  /** The lower-case hexadecimal digit of value `d`. */
  function HexDigit(d: nat): char
    requires d < 16
  {
    if d < 10 then ('0' as int + d) as char else ('a' as int + d - 10) as char
  }

  /** The value of a lower-case hexadecimal digit. */
  function HexValue(c: char): Option<nat> {
    if '0' <= c <= '9' then Some(c as int - '0' as int)
    else if 'a' <= c <= 'f' then Some(c as int - 'a' as int + 10)
    else None
  }

  /** `n.toString(16)`: base 16, lower case, no leading zeros. */
  function ToHexString(n: nat): (r: string)
    ensures 1 <= |r|
    ensures |r| == 1 <==> n < 16
  {
    if n < 16 then [HexDigit(n)] else ToHexString(n / 16) + [HexDigit(n % 16)]
  }

  /** The value of a string of lower-case hexadecimal digits, None when some character is not
      one. */
  function FromHexString(s: string): Option<nat> {
    if s == [] then Some(0)
    else
      var high := FromHexString(s[..|s| - 1]);
      var low := HexValue(s[|s| - 1]);
      if high.Some? && low.Some? then Some(high.value * 16 + low.value) else None
  }

  lemma HexValueOfDigit(d: nat)
    requires d < 16
    ensures HexValue(HexDigit(d)) == Some(d)
  {
  }

  /** The last digit of `n.toString(16)` is the digit of `n % 16`. */
  lemma LastHexDigit(n: nat)
    ensures ToHexString(n)[|ToHexString(n)| - 1] == HexDigit(n % 16)
  {
  }

  lemma DivMod16(n: nat)
    ensures n == n / 16 * 16 + n % 16
  {
  }

  /** Reading one more digit multiplies what was read by 16 and adds the digit. */
  lemma FromHexStringSnoc(s: string, d: nat)
    requires d < 16
    requires FromHexString(s).Some?
    ensures FromHexString(s + [HexDigit(d)]) == Some(FromHexString(s).value * 16 + d)
  {
    var t := s + [HexDigit(d)];
    assert t[..|t| - 1] == s;
    HexValueOfDigit(d);
  }

  /** `toString(16)` writes `n` in base 16: reading the digits back gives `n`. */
  lemma {:induction false} HexStringRoundTrip(n: nat)
    ensures FromHexString(ToHexString(n)) == Some(n)
  {
    if n < 16 {
      FromHexStringSnoc([], n);
      assert [] + [HexDigit(n)] == ToHexString(n);
    } else {
      var high, low := n / 16, n % 16;
      HexStringRoundTrip(high);
      FromHexStringSnoc(ToHexString(high), low);
      assert ToHexString(n) == ToHexString(high) + [HexDigit(low)];
      DivMod16(n);
    }
  }

  /** `('00' + n.toString(16)).slice(-2)` is the two low hexadecimal digits of `n`, that is
      `n % 256` written with exactly two digits. */
  lemma LastTwoHexDigits(n: nat)
    ensures |"00" + ToHexString(n)| >= 2
    ensures ("00" + ToHexString(n))[|"00" + ToHexString(n)| - 2..] == [HexDigit(n / 16 % 16), HexDigit(n % 16)]
  {
    var h := ToHexString(n);
    var padded := "00" + h;
    var k := |padded|;
    if n < 16 {
      assert padded == ['0', '0', HexDigit(n)];
      assert n / 16 % 16 == 0;
    } else {
      var high := ToHexString(n / 16);
      assert h == high + [HexDigit(n % 16)];
      LastHexDigit(n / 16);
      assert padded[k - 2] == high[|high| - 1] == HexDigit(n / 16 % 16);
      assert padded[k - 1] == HexDigit(n % 16);
    }
    assert padded[k - 2..] == [padded[k - 2], padded[k - 1]];
  }

  /** `c => '%' + ('00' + c.charCodeAt(0).toString(16)).slice(-2)`: a percent sign and the two
      low hexadecimal digits of the character's code. */
  function EscapeUnit(c: char): (r: string)
    ensures r == ['%', HexDigit(c as int / 16 % 16), HexDigit(c as int % 16)]
  {
    LastTwoHexDigits(c as int);
    var padded := "00" + ToHexString(c as int);
    ['%'] + padded[|padded| - 2..]
  }

  /** `s.split('').map(EscapeUnit).join('')`: three characters per input character, each group
      the escape of that character. */
  function PercentEncode(s: string): (r: string)
    ensures |r| == 3 * |s|
    ensures forall i :: 0 <= i < |s| ==> r[3 * i..3 * i + 3] == EscapeUnit(s[i])
  {
    if s == [] then []
    else
      var rest := PercentEncode(s[1..]);
      var r := EscapeUnit(s[0]) + rest;
      assert forall i :: 1 <= i < |s| ==> r[3 * i..3 * i + 3] == rest[3 * (i - 1)..3 * (i - 1) + 3];
      r
  }

  /** The octets a `%XX%XX...` text stands for, None when it is not made only of such escapes;
      this is the first thing `decodeURIComponent` does with the escapes. */
  function PercentDecode(t: string): Option<seq<nat>>
    decreases |t|
  {
    if t == [] then Some([])
    else if |t| < 3 || t[0] != '%' then None
    else
      match (HexValue(t[1]), HexValue(t[2]), PercentDecode(t[3..]))
      case (Some(high), Some(low), Some(rest)) => Some([high * 16 + low] + rest)
      case _ => None
  }

  /** The octet of each character: its code modulo 256. `atob` only produces characters
      below 256, for which this is the code itself. */
  function Octets(s: string): (r: seq<nat>)
    ensures |r| == |s|
    ensures forall i :: 0 <= i < |s| ==> r[i] == s[i] as int % 256
  {
    if s == [] then [] else [s[0] as int % 256] + Octets(s[1..])
  }

  lemma EscapeOctet(c: char)
    ensures (c as int / 16 % 16) * 16 + c as int % 16 == c as int % 256
  {
    var n := c as int;
    var q := n / 256;
    var m := n % 256;
    assert n == q * 256 + m;
    assert n / 16 == q * 16 + m / 16;
    assert n % 16 == m % 16;
  }

  /** Decoding one escape in front of a decodable text. */
  lemma PercentDecodeEscape(c: char, t: string, rest: seq<nat>)
    requires PercentDecode(t) == Some(rest)
    ensures PercentDecode(EscapeUnit(c) + t) == Some([c as int % 256] + rest)
  {
    var high, low := c as int / 16 % 16, c as int % 16;
    var u := EscapeUnit(c) + t;
    HexValueOfDigit(high);
    HexValueOfDigit(low);
    assert u[1] == HexDigit(high) && u[2] == HexDigit(low);
    assert u[3..] == t;
    EscapeOctet(c);
  }

  /** The escaping loses nothing below code 256: decoding the escapes gives back every
      character's octet. */
  lemma {:induction false} PercentRoundTrip(s: string)
    ensures PercentDecode(PercentEncode(s)) == Some(Octets(s))
  {
    if s != [] {
      PercentRoundTrip(s[1..]);
      assert PercentEncode(s) == EscapeUnit(s[0]) + PercentEncode(s[1..]);
      PercentDecodeEscape(s[0], PercentEncode(s[1..]), Octets(s[1..]));
      assert Octets(s) == [s[0] as int % 256] + Octets(s[1..]);
    }
  }

  /** The part of `parseJwt` after the segment has been selected: the alphabet substitution,
      `atob`, the escaping, `decodeURIComponent` and `JSON.parse`, with `{}` wherever one of
      the three browser routines throws. */
  function DecodePayload(segment: string, atob: string -> Option<string>,
                         decodeUriComponent: string -> Option<string>,
                         jsonParse: string -> Option<JsonValue>): (payload: JsonValue)
    ensures atob(ToStandardAlphabet(segment)).None? ==> payload == EmptyObject
    ensures payload != EmptyObject ==>
      var binary := atob(ToStandardAlphabet(segment));
      && binary.Some?
      && decodeUriComponent(PercentEncode(binary.value)).Some?
      && jsonParse(decodeUriComponent(PercentEncode(binary.value)).value) == Some(payload)
    ensures
      var binary := atob(ToStandardAlphabet(segment));
      binary.Some? && decodeUriComponent(PercentEncode(binary.value)).Some?
      && jsonParse(decodeUriComponent(PercentEncode(binary.value)).value).Some? ==>
        payload == jsonParse(decodeUriComponent(PercentEncode(binary.value)).value).value
  {
    match atob(ToStandardAlphabet(segment))
    case None => EmptyObject
    case Some(binary) =>
      match decodeUriComponent(PercentEncode(binary))
      case None => EmptyObject
      case Some(text) =>
        match jsonParse(text)
        case None => EmptyObject
        case Some(v) => v
  }

  /** `parseJwt(token)`. It is total: every failure yields `{}`, never an exception. */
  function ParseJwt(token: string, atob: string -> Option<string>,
                    decodeUriComponent: string -> Option<string>,
                    jsonParse: string -> Option<JsonValue>): (payload: JsonValue)
    ensures '.' !in token ==> payload == EmptyObject
  {
    match PayloadSegment(token)
    case None => EmptyObject
    case Some(segment) => DecodePayload(segment, atob, decodeUriComponent, jsonParse)
  }

  /** Only the payload segment of a compact token matters: the header and the signature are
      neither read nor checked. */
  lemma ParseJwtReadsOnlyPayload(header1: string, header2: string, payload: string,
                                 signature1: string, signature2: string,
                                 atob: string -> Option<string>,
                                 decodeUriComponent: string -> Option<string>,
                                 jsonParse: string -> Option<JsonValue>)
    requires '.' !in header1 && '.' !in header2 && '.' !in payload
    ensures ParseJwt(header1 + "." + payload + "." + signature1, atob, decodeUriComponent, jsonParse)
         == ParseJwt(header2 + "." + payload + "." + signature2, atob, decodeUriComponent, jsonParse)
         == DecodePayload(payload, atob, decodeUriComponent, jsonParse)
  {
    PayloadSegmentOfCompact(header1, payload, signature1);
    PayloadSegmentOfCompact(header2, payload, signature2);
  }
}
