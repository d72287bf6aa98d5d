/** The front end's token helpers. A token is in the JWS compact serialization
    (section 7.1 of RFC 7515): three base64url parts joined by '.'; the
    payload part carries the `sub` and `exp` claims (sections 4.1.2 and 4.1.4
    of RFC 7519). Base64 decoding and JSON parsing (atob, JSON.parse) are the
    parameter `parse`, None when either would throw or yields no object. */
module Jwt {
  import opened Wrappers
  import opened Text

  /** The claims read from the payload; a claim the JSON lacks is None. */
  datatype JwtPayload = JwtPayload(sub: Option<string>, exp: Option<int>)

  /** The number of '=' characters decodeJwt appends: (4 - n % 4) % 4. */
  function PadCount(n: nat): (k: nat)
    ensures k < 4 && (n + k) % 4 == 0
  {
    (4 - n % 4) % 4
  }

  function Repeat(c: char, k: nat): (r: string)
    ensures |r| == k && forall i :: 0 <= i < k ==> r[i] == c
  {
    if k == 0 then [] else [c] + Repeat(c, k - 1)
  }

  /** The payload padded with '=' to a multiple of four characters. */
  function Pad(payload: string): (r: string)
    ensures |r| % 4 == 0 && |payload| <= |r| < |payload| + 4
    ensures r[..|payload|] == payload
    ensures forall i :: |payload| <= i < |r| ==> r[i] == '='
  {
    payload + Repeat('=', PadCount(|payload|))
  }

  /** `s.replace(/<from>/g, to)` for one character. */
  function ReplaceAll(s: string, from: char, to: char): (r: string)
    ensures |r| == |s|
    ensures forall i :: 0 <= i < |s| ==> r[i] == if s[i] == from then to else s[i]
  {
    if s == [] then [] else [if s[0] == from then to else s[0]] + ReplaceAll(s[1..], from, to)
  }

  /** The base64url alphabet (section 5 of RFC 4648) differs from base64's in
      two characters: '-' for '+', '_' for '/'. */
  function FromUrlChar(c: char): char {
    if c == '-' then '+' else if c == '_' then '/' else c
  }

  function ToUrlChar(c: char): char {
    if c == '+' then '-' else if c == '/' then '_' else c
  }

  /** The text decodeJwt hands to atob: the padded payload, then the two
      replacements. */
  function Base64Text(payload: string): string {
    ReplaceAll(ReplaceAll(Pad(payload), '-', '+'), '_', '/')
  }

  /** The two replacements convert every character of the padded payload by
      the alphabet mapping, and change nothing else. */
  lemma Base64TextIsAlphabetMapping(payload: string)
    ensures var b := Base64Text(payload);
            && |b| == |Pad(payload)|
            && forall i :: 0 <= i < |b| ==> b[i] == FromUrlChar(Pad(payload)[i])
  {
  }

  /** For text in the base64url alphabet the conversion is undone by the
      reverse mapping: nothing is lost. */
  lemma Base64TextRoundTrip(payload: string)
    requires '+' !in payload && '/' !in payload
    ensures var b := Base64Text(payload);
            forall i :: 0 <= i < |payload| ==> ToUrlChar(b[i]) == payload[i]
  {
    var b := Base64Text(payload);
    forall i | 0 <= i < |payload| ensures ToUrlChar(b[i]) == payload[i] {
      assert Pad(payload)[i] == payload[i];
      assert payload[i] != '+' && payload[i] != '/';
    }
  }

  /** decodeJwt: None unless the token has exactly three '.'-separated parts;
      otherwise the parse of the converted second part. */
  function DecodeJwt(token: string, parse: string -> Option<JwtPayload>): (r: Option<JwtPayload>)
    ensures |Split(token, '.')| != 3 ==> r.None?
    ensures |Split(token, '.')| == 3 ==> r == parse(Base64Text(Split(token, '.')[1]))
  {
    var parts := Split(token, '.');
    if |parts| != 3 then None else parse(Base64Text(parts[1]))
  }

  /** The number of occurrences of `c` in `s`. */
  function Count(s: string, c: char): nat {
    if s == [] then 0 else (if s[0] == c then 1 else 0) + Count(s[1..], c)
  }

  /** split yields one part more than there are separators. */
  lemma {:induction false} SplitCount(s: string, sep: char)
    ensures |Split(s, sep)| == Count(s, sep) + 1
  {
    if s != [] {
      SplitCount(s[1..], sep);
    }
  }

  /** A token is accepted for decoding exactly when it holds two dots. */
  lemma ThreePartsIffTwoDots(token: string, parse: string -> Option<JwtPayload>)
    ensures |Split(token, '.')| == 3 <==> Count(token, '.') == 2
    ensures Count(token, '.') != 2 ==> DecodeJwt(token, parse).None?
  {
    SplitCount(token, '.');
  }

  /** A compact token header.payload.signature decodes its middle part. */
  lemma DecodesCompactPayload(header: string, payload: string, signature: string,
                              parse: string -> Option<JwtPayload>)
    requires '.' !in header && '.' !in payload && '.' !in signature
    ensures DecodeJwt(header + "." + payload + "." + signature, parse) == parse(Base64Text(payload))
  {
    var parts := [header, payload, signature];
    assert Join(parts, '.') == header + "." + payload + "." + signature by {
      assert Join(parts[1..], '.') == payload + "." + Join(parts[2..], '.');
    }
    SplitJoin(parts, '.');
  }

  /** The characters parseInt skips at the front (StrWhiteSpaceChar). */
  predicate IsJsSpace(c: char) {
    || c == '\t' || c == '\n' || c == '\U{000B}' || c == '\U{000C}' || c == '\r' || c == ' '
    || c == '\U{00A0}' || c == '\U{1680}' || ('\U{2000}' <= c <= '\U{200A}')
    || c == '\U{2028}' || c == '\U{2029}' || c == '\U{202F}' || c == '\U{205F}'
    || c == '\U{3000}' || c == '\U{FEFF}'
  }

  function LeadingJsSpaces(s: string): (n: nat)
    ensures n <= |s|
    ensures forall k :: 0 <= k < n ==> IsJsSpace(s[k])
    ensures n < |s| ==> !IsJsSpace(s[n])
  {
    if s == [] || !IsJsSpace(s[0]) then 0 else 1 + LeadingJsSpaces(s[1..])
  }

  /** The length of the longest prefix of decimal digits. */
  function DigitPrefix(s: string): (n: nat)
    ensures n <= |s| && AllDigits(s[..n])
    ensures n < |s| ==> !IsDigit(s[n])
  {
    if s == [] || !IsDigit(s[0]) then 0
    else
      var n := 1 + DigitPrefix(s[1..]);
      assert forall i :: 1 <= i < n ==> s[..n][i] == s[1..][..n - 1][i - 1];
      n
  }

  /** The value of the digits at the front of `body`, or None without any. */
  function ParseDigits(body: string): (r: Option<int>)
    ensures r.Some? ==> r.value >= 0
  {
    var n := DigitPrefix(body);
    var magnitude: int := DecimalValue(body[..n]);
    if n == 0 then None else Some(magnitude)
  }

  function Negated(v: Option<int>): Option<int> {
    if v.None? then None else Some(-v.value)
  }

  /** An optional sign, then the digits. */
  function ParseSigned(t: string): Option<int> {
    if |t| > 0 && t[0] == '-' then Negated(ParseDigits(t[1..]))
    else if |t| > 0 && t[0] == '+' then ParseDigits(t[1..])
    else ParseDigits(t)
  }

  /** parseInt(s, 10): leading white space skipped, an optional sign, then the
      longest run of digits; no digit at all gives NaN, here None. */
  function ParseInt(s: string): Option<int> {
    ParseSigned(s[LeadingJsSpaces(s)..])
  }

  /** The digits at the front are read, and what follows them is ignored. */
  lemma ParseDigitsReadsPrefix(digits: string, rest: string)
    requires |digits| >= 1 && AllDigits(digits)
    requires rest == [] || !IsDigit(rest[0])
    ensures ParseDigits(digits + rest) == Some(DecimalValue(digits))
  {
    DigitPrefixOfDigits(digits, rest);
    assert (digits + rest)[..|digits|] == digits;
  }

  /** Text that does not start with white space is read from its first character. */
  lemma ParseIntWithoutSpaces(s: string)
    requires |s| > 0 && !IsJsSpace(s[0])
    ensures ParseInt(s) == ParseSigned(s)
  {
    assert s[0..] == s;
  }

  /** parseInt reads the digits at the front and ignores what follows them. */
  lemma ParseIntReadsDigits(digits: string, rest: string)
    requires |digits| >= 1 && AllDigits(digits)
    requires rest == [] || !IsDigit(rest[0])
    ensures ParseInt(digits + rest) == Some(DecimalValue(digits))
  {
    var s := digits + rest;
    assert IsDigit(s[0]);
    ParseIntWithoutSpaces(s);
    ParseDigitsReadsPrefix(digits, rest);
  }

  /** A leading minus sign negates the number that follows it. */
  lemma ParseIntReadsSign(digits: string, rest: string)
    requires |digits| >= 1 && AllDigits(digits)
    requires rest == [] || !IsDigit(rest[0])
    ensures ParseInt("-" + (digits + rest)) == Negated(ParseInt(digits + rest))
    ensures ParseInt("-" + (digits + rest)) == Negated(Some(DecimalValue(digits)))
  {
    var s := digits + rest;
    var m := "-" + s;
    assert m[0] == '-';
    ParseIntWithoutSpaces(m);
    assert m[1..] == s;
    ParseIntReadsDigits(digits, rest);
    assert IsDigit(s[0]);
    ParseIntWithoutSpaces(s);
  }

  lemma {:induction false} DigitPrefixOfDigits(digits: string, rest: string)
    requires AllDigits(digits)
    requires rest == [] || !IsDigit(rest[0])
    ensures DigitPrefix(digits + rest) == |digits|
  {
    if digits != [] {
      DigitPrefixOfDigits(digits[1..], rest);
      assert (digits + rest)[1..] == digits[1..] + rest;
    }
  }

  /** A user id written in decimal parses back to itself. */
  lemma ParseIntRoundTrip(n: nat)
    ensures ParseInt(NatToDecimal(n)) == Some(n)
  {
    ParseIntReadsDigits(NatToDecimal(n), []);
    assert NatToDecimal(n) + [] == NatToDecimal(n);
    DecimalRoundTrip(n);
  }

  /** A missing claim, an empty `sub` or a zero `exp` is falsy in the
      front end's checks. */
  predicate HasSub(p: JwtPayload) { p.sub.Some? && p.sub.value != "" }
  predicate HasExp(p: JwtPayload) { p.exp.Some? && p.exp.value != 0 }

  /** getUserIdFromToken: the parsed `sub`, or None for no payload, no or an
      empty `sub`, or a `sub` that does not start with an integer. */
  function UserIdFromToken(token: string, parse: string -> Option<JwtPayload>): (r: Option<int>)
    ensures DecodeJwt(token, parse).None? ==> r.None?
    ensures DecodeJwt(token, parse).Some? && !HasSub(DecodeJwt(token, parse).value) ==> r.None?
    ensures DecodeJwt(token, parse).Some? && HasSub(DecodeJwt(token, parse).value) ==>
              r == ParseInt(DecodeJwt(token, parse).value.sub.value)
  {
    match DecodeJwt(token, parse)
    case None => None
    case Some(payload) => if !HasSub(payload) then None else ParseInt(payload.sub.value)
  }

  /** A token whose subject is a user id in decimal yields that id. */
  lemma UserIdOfDecimalSubject(token: string, parse: string -> Option<JwtPayload>, id: nat, exp: Option<int>)
    requires DecodeJwt(token, parse) == Some(JwtPayload(Some(NatToDecimal(id)), exp))
    ensures UserIdFromToken(token, parse) == Some(id)
  {
    ParseIntRoundTrip(id);
  }

  /** isTokenExpired at `nowMs` milliseconds: expired without a payload or an
      `exp`; otherwise expired when `exp` is before the current whole second. */
  function IsTokenExpired(token: string, parse: string -> Option<JwtPayload>, nowMs: nat): (expired: bool)
    ensures DecodeJwt(token, parse).None? ==> expired
    ensures DecodeJwt(token, parse).Some? && !HasExp(DecodeJwt(token, parse).value) ==> expired
  {
    match DecodeJwt(token, parse)
    case None => true
    case Some(payload) => if !HasExp(payload) then true else payload.exp.value < nowMs / 1000
  }

  /** With an `exp`, the token is expired exactly when the clock has passed the
      whole second `exp`; so `exp` equal to the current second is not expired. */
  lemma ExpiredIffSecondPassed(token: string, parse: string -> Option<JwtPayload>, nowMs: nat)
    requires DecodeJwt(token, parse).Some? && HasExp(DecodeJwt(token, parse).value)
    ensures var e := DecodeJwt(token, parse).value.exp.value;
            && (IsTokenExpired(token, parse, nowMs) <==> (e + 1) * 1000 <= nowMs)
            && (e == nowMs / 1000 ==> !IsTokenExpired(token, parse, nowMs))
  {
    var e := DecodeJwt(token, parse).value.exp.value;
    var q := nowMs / 1000;
    assert q * 1000 <= nowMs < q * 1000 + 1000;
    if e < q {
      assert (e + 1) * 1000 <= q * 1000;
    } else {
      assert (e + 1) * 1000 >= q * 1000 + 1000;
    }
  }

  /** getTokenExpiration: the `exp` instant in milliseconds, or None. */
  function TokenExpiration(token: string, parse: string -> Option<JwtPayload>): (r: Option<int>)
    ensures r.Some? <==> DecodeJwt(token, parse).Some? && HasExp(DecodeJwt(token, parse).value)
    ensures r.Some? ==> r.value == DecodeJwt(token, parse).value.exp.value * 1000
  {
    match DecodeJwt(token, parse)
    case None => None
    case Some(payload) => if !HasExp(payload) then None else Some(payload.exp.value * 1000)
  }

  /** The expiration instant and the expiry check agree: a token with an
      expiration is expired once a full second has passed since that instant. */
  lemma ExpirationAgreesWithExpiry(token: string, parse: string -> Option<JwtPayload>, nowMs: nat)
    ensures TokenExpiration(token, parse).None? ==> IsTokenExpired(token, parse, nowMs)
    ensures TokenExpiration(token, parse).Some? ==>
              (IsTokenExpired(token, parse, nowMs) <==> TokenExpiration(token, parse).value + 1000 <= nowMs)
  {
    if TokenExpiration(token, parse).Some? {
      ExpiredIffSecondPassed(token, parse, nowMs);
    }
  }
}
