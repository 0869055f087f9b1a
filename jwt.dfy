/** The token layer: the base64url text transform of section 5 of RFC 4648
    (unpadded, as section 2 of RFC 7515 uses it), and HS256 tokens built
    from it. Buffer's base64, the HMAC and JSON are primitives passed in as
    a value; their behaviour is assumed only where a lemma says so. */
module Jwt {
  import opened Common
  import opened Json
  import opened Text

  // ----------------------------------------------------------- text layer

  /** `s.replace(/a/g, b)` for one character. */
  function Replace(s: string, a: char, b: char): (r: string)
    ensures |r| == |s|
    ensures forall i :: 0 <= i < |s| ==> r[i] == (if s[i] == a then b else s[i])
  {
    if s == [] then [] else [if s[0] == a then b else s[0]] + Replace(s[1..], a, b)
  }

  /** `s.replace(/c/g, '')`. */
  function RemoveAll(s: string, c: char): (r: string)
    ensures c !in r
    ensures |r| <= |s|
    ensures c !in s ==> r == s
    ensures forall x :: x in r ==> x in s
  {
    if s == [] then [] else (if s[0] == c then [] else [s[0]]) + RemoveAll(s[1..], c)
  }

  /** The characters of standard base64 text other than padding. */
  predicate StdChar(c: char) {
    ('A' <= c <= 'Z') || ('a' <= c <= 'z') || ('0' <= c <= '9') || c == '+' || c == '/'
  }

  function Pads(n: nat): (r: string)
    ensures |r| == n && forall i :: 0 <= i < n ==> r[i] == '='
  {
    seq(n, _ => '=')
  }

  /** The number of '=' a string ends with. */
  function TrailingPads(b: string): (n: nat)
    ensures n <= |b|
    decreases |b|
  {
    if |b| > 0 && b[|b| - 1] == '=' then 1 + TrailingPads(b[..|b| - 1]) else 0
  }

  lemma {:induction false} TrailingPadsSplit(b: string)
    ensures b == b[..|b| - TrailingPads(b)] + Pads(TrailingPads(b))
    decreases |b|
  {
    if |b| > 0 && b[|b| - 1] == '=' {
      var c := b[..|b| - 1];
      TrailingPadsSplit(c);
      assert c[..|c| - TrailingPads(c)] == b[..|b| - TrailingPads(b)];
      assert Pads(TrailingPads(c)) + "=" == Pads(TrailingPads(b));
      assert b == c + "=";
    }
  }

  /** Standard base64 text as Buffer produces it: whole quanta of four
      characters, at most two '=' at the end and alphabet characters before. */
  predicate StandardBase64(b: string) {
    && |b| % 4 == 0
    && TrailingPads(b) <= 2
    && forall i :: 0 <= i < |b| - TrailingPads(b) ==> StdChar(b[i])
  }

  /** The text part of `base64UrlEncode`: drop every '=', then '+' to '-'
      and '/' to '_'. */
  function UrlEncodeText(b: string): (r: string)
    ensures '=' !in r && '+' !in r && '/' !in r
    ensures |r| <= |b|
  {
    var stripped := RemoveAll(b, '=');
    var r := Replace(Replace(stripped, '+', '-'), '/', '_');
    assert forall i :: 0 <= i < |r| ==> r[i] != '=' && r[i] != '+' && r[i] != '/' by {
      forall i | 0 <= i < |r| ensures r[i] != '=' && r[i] != '+' && r[i] != '/' {
        assert stripped[i] in stripped;
      }
    }
    r
  }

  /** The text part of `base64UrlDecode` before its padding loop. */
  function ToStandard(s: string): (r: string)
    ensures |r| == |s|
  {
    Replace(Replace(s, '-', '+'), '_', '/')
  }

  /** The padding count the decode loop appends. */
  function PadNeeded(n: nat): nat {
    (4 - n % 4) % 4
  }

  /** `while (str.length % 4) str += '='` as a value: the shortest
      extension by '=' to a multiple of four. */
  function Padded(s: string): (r: string)
    ensures |r| % 4 == 0 && |s| <= |r| <= |s| + 3
    ensures r[..|s|] == s && forall i :: |s| <= i < |r| ==> r[i] == '='
    ensures |s| % 4 == 0 ==> r == s
  {
    s + Pads(PadNeeded(|s|))
  }

  /** The padding loop of `base64UrlDecode`. */
  method Repad(s: string) returns (r: string)
    ensures r == Padded(s)
  {
    r := s;
    while |r| % 4 != 0
      invariant |s| <= |r| <= |s| + PadNeeded(|s|)
      invariant r == s + Pads(|r| - |s|)
      decreases |s| + PadNeeded(|s|) - |r|
    {
      r := r + "=";
    }
  }

  /** Removing padding from the alphabet part and restoring it undoes the
      swap, for any standard base64 text. */
  lemma StandardRoundTrip(b: string)
    requires StandardBase64(b)
    ensures Padded(ToStandard(UrlEncodeText(b))) == b
  {
    var n := TrailingPads(b);
    var body := b[..|b| - n];
    TrailingPadsSplit(b);
    BodyRoundTrip(body, n);
  }

  lemma BodyRoundTrip(body: string, pad: nat)
    requires forall i :: 0 <= i < |body| ==> StdChar(body[i])
    requires pad <= 3 && (|body| + pad) % 4 == 0
    ensures Padded(ToStandard(UrlEncodeText(body + Pads(pad)))) == body + Pads(pad)
  {
    var b := body + Pads(pad);
    RemoveAllPads(body, pad);
    var u := UrlEncodeText(b);
    assert u == Replace(Replace(body, '+', '-'), '/', '_');
    SwapBack(body);
    PadNeededFills(|body|, pad);
    assert Padded(body) == body + Pads(pad);
  }

  lemma PadNeededFills(n: nat, pad: nat)
    requires pad <= 3 && (n + pad) % 4 == 0
    ensures PadNeeded(n) == pad
  {
  }

  /** Undoing the URL-safe swap on text without '-' or '_' restores it. */
  lemma SwapBack(body: string)
    requires forall i :: 0 <= i < |body| ==> StdChar(body[i])
    ensures ToStandard(Replace(Replace(body, '+', '-'), '/', '_')) == body
  {
    var w := Replace(body, '+', '-');
    var u := Replace(w, '/', '_');
    var x := Replace(u, '-', '+');
    var v := Replace(x, '_', '/');
    forall i | 0 <= i < |body| ensures v[i] == body[i] {
      var c := body[i];
      assert StdChar(c);
      assert c != '-' && c != '_';
      assert w[i] == (if c == '+' then '-' else c);
      assert u[i] == (if w[i] == '/' then '_' else w[i]);
      assert x[i] == (if u[i] == '-' then '+' else u[i]);
      assert v[i] == (if x[i] == '_' then '/' else x[i]);
    }
    assert ToStandard(u) == v;
  }

  lemma {:induction false} RemoveAllPads(body: string, pad: nat)
    requires forall i :: 0 <= i < |body| ==> StdChar(body[i])
    ensures RemoveAll(body + Pads(pad), '=') == body
    decreases |body| + pad
  {
    var b := body + Pads(pad);
    if body == [] {
      if pad > 0 {
        assert b[0] == '=' && b[1..] == [] + Pads(pad - 1);
        RemoveAllPads(body, pad - 1);
      } else {
        assert b == [];
      }
    } else {
      assert b[0] == body[0] && StdChar(body[0]);
      assert b[1..] == body[1..] + Pads(pad);
      RemoveAllPads(body[1..], pad);
      assert [body[0]] + body[1..] == body;
    }
  }

  // ------------------------------------------------------------ primitives

  /** The library calls the module depends on. `parse` is None when
      `JSON.parse` throws; `toNumber` is the conversion JavaScript applies
      to text where a number is expected, None when it gives NaN. */
  datatype Primitives = Primitives(
    base64: string -> string,
    unbase64: string -> string,
    hmac: (string, string) -> string,
    stringify: JsonValue -> string,
    parse: string -> Option<JsonValue>,
    toNumber: string -> Option<real>)

  /** What the round-trip lemmas assume of Buffer and the HMAC: Buffer's
      base64 of the UTF-8 bytes is standard, non-empty on non-empty input
      and decodes back to the text; the HMAC digest (32 bytes, so 44
      characters) is standard base64. */
  ghost predicate Base64Laws(p: Primitives) {
    && (forall s :: StandardBase64(p.base64(s)))
    && (forall s :: s != "" ==> |p.base64(s)| >= 4)
    && (forall s :: p.unbase64(p.base64(s)) == s)
    && (forall k, m :: StandardBase64(p.hmac(k, m)) && |p.hmac(k, m)| >= 4)
  }

  /** What they assume of JSON: the text of a value whose numbers are safe
      integers is never empty and parses back to the value. Other numbers
      come back as the nearest double, so nothing is assumed of them. */
  ghost predicate JsonLaw(p: Primitives) {
    forall v :: Exact(v) ==> p.stringify(v) != "" && p.parse(p.stringify(v)) == Some(v)
  }

  /** `base64UrlEncode(str)`: unpadded, URL-safe text no longer than
      Buffer's base64; `DecodeEncode` is its inverse. */
  function Base64UrlEncode(p: Primitives, s: string): (r: string)
    ensures '=' !in r && '+' !in r && '/' !in r
    ensures |r| <= |p.base64(s)|
  {
    UrlEncodeText(p.base64(s))
  }

  /** `base64UrlDecode` as a value. */
  function Base64UrlDecodeSpec(p: Primitives, s: string): string {
    p.unbase64(Padded(ToStandard(s)))
  }

  method Base64UrlDecode(p: Primitives, s: string) returns (r: string)
    ensures r == Base64UrlDecodeSpec(p, s)
  {
    var padded := Repad(ToStandard(s));
    r := p.unbase64(padded);
  }

  /** Decoding undoes encoding whenever Buffer's base64 does. */
  lemma DecodeEncode(p: Primitives, s: string)
    requires Base64Laws(p)
    ensures Base64UrlDecodeSpec(p, Base64UrlEncode(p, s)) == s
  {
    StandardRoundTrip(p.base64(s));
  }

  /** A standard base64 text of at least one quantum keeps a non-empty
      body once its padding is gone. */
  lemma EncodedNonEmpty(b: string)
    requires StandardBase64(b) && |b| >= 4
    ensures UrlEncodeText(b) != ""
  {
    TrailingPadsSplit(b);
    var body := b[..|b| - TrailingPads(b)];
    RemoveAllPads(body, TrailingPads(b));
  }

  // ---------------------------------------------------------------- tokens

  /** `process.env.JWT_SECRET || 'my_super_secret'`. */
  function Secret(env: Option<string>): (s: string)
    ensures s != ""
    ensures env.Some? && env.value != "" ==> s == env.value
  {
    if env.Some? && env.value != "" then env.value else "my_super_secret"
  }

  const DefaultExpiresInSec := 900
  const AccessTokenSec := 3600

  function HeaderJson(): JsonValue {
    JObj(map["alg" := JStr("HS256"), "typ" := JStr("JWT")])
  }

  /** `Math.floor(Date.now() / 1000) + expiresInSec`. */
  function ExpiryAt(now: Time, expiresInSec: int): int {
    now / 1000 + expiresInSec
  }

  function Signature(p: Primitives, secret: string, encodedHeader: string, encodedPayload: string): string {
    UrlEncodeText(p.hmac(secret, encodedHeader + "." + encodedPayload))
  }

  /** `{ ...payload, exp }`. */
  function WithExp(payload: map<string, JsonValue>, exp: int): JsonValue {
    JObj(payload["exp" := JNum(exp as real)])
  }

  /** `signJwt(payload, expiresInSec)` at clock reading `now`: whenever
      Buffer's base64 and the HMAC behave, three segments of which the last
      is the signature over the first two. */
  function SignJwt(p: Primitives, secret: string, payload: map<string, JsonValue>, expiresInSec: int, now: Time): (token: string)
    ensures Base64Laws(p) ==>
              var parts := Split(token, '.');
              |parts| == 3 && parts[2] == Signature(p, secret, parts[0], parts[1])
  {
    var encodedHeader := Base64UrlEncode(p, p.stringify(HeaderJson()));
    var encodedPayload := Base64UrlEncode(p, p.stringify(WithExp(payload, ExpiryAt(now, expiresInSec))));
    var signature := Signature(p, secret, encodedHeader, encodedPayload);
    ThreeSegmentsIf(p, secret, p.stringify(HeaderJson()), p.stringify(WithExp(payload, ExpiryAt(now, expiresInSec))));
    Join([encodedHeader, encodedPayload, signature], '.')
  }

  lemma ThreeSegmentsIf(p: Primitives, secret: string, header: string, body: string)
    ensures var h, pl := Base64UrlEncode(p, header), Base64UrlEncode(p, body);
            Base64Laws(p) ==> Split(Join([h, pl, Signature(p, secret, h, pl)], '.'), '.') == [h, pl, Signature(p, secret, h, pl)]
  {
    if Base64Laws(p) {
      var h, pl := Base64UrlEncode(p, header), Base64UrlEncode(p, body);
      var sig := Signature(p, secret, h, pl);
      assert StandardBase64(p.base64(header)) && StandardBase64(p.base64(body));
      assert StandardBase64(p.hmac(secret, h + "." + pl));
      UrlTextAvoids(p.base64(header), '.');
      UrlTextAvoids(p.base64(body), '.');
      UrlTextAvoids(p.hmac(secret, h + "." + pl), '.');
      SplitThree(h, pl, sig);
    }
  }

  lemma SplitThree(h: string, pl: string, sig: string)
    requires '.' !in h && '.' !in pl && '.' !in sig
    ensures Split(Join([h, pl, sig], '.'), '.') == [h, pl, sig]
  {
    SplitJoin([h, pl, sig], '.');
  }

  /** `signJwt(payload)` without a lifetime: the default of 900 seconds. */
  function SignJwtDefault(p: Primitives, secret: string, payload: map<string, JsonValue>, now: Time): (token: string)
    ensures token == SignJwt(p, secret, payload, DefaultExpiresInSec, now)
  {
    SignJwt(p, secret, payload, DefaultExpiresInSec, now)
  }

  /** The error `JSON.parse` throws on text that is not JSON. */
  function SyntaxError(): Thrown {
    Thrown(false, "", 0, Unspecified, "Unexpected token in JSON")
  }

  /** The error of converting an object whose own `toString` key hides the
      method (JSON text cannot make it callable) to a primitive. */
  function CannotConvert(): Thrown {
    TypeError("Cannot convert object to primitive value")
  }

  /** `String(e)` for an element of an array being joined: null joins as
      the empty string, a number as its JSON text (the same as its string
      form for a finite number), an array as its own join and an object as
      "[object Object]"; None when the conversion throws. */
  function ElementText(p: Primitives, e: JsonValue): Option<string>
    decreases e
  {
    match e
    case JNull => Some("")
    case JBool(b) => Some(if b then "true" else "false")
    case JNum(_) => Some(p.stringify(e))
    case JStr(s) => Some(s)
    case JArr(es) => JoinTexts(seq(|es|, i requires 0 <= i < |es| => ElementText(p, es[i])))
    case JObj(fs) => if "toString" in fs then None else Some("[object Object]")
  }

  /** `texts.join(',')`, None when any element's conversion throws. */
  function JoinTexts(texts: seq<Option<string>>): (r: Option<string>)
    ensures r.Some? <==> forall i :: 0 <= i < |texts| ==> texts[i].Some?
  {
    if texts == [] then Some("")
    else if texts[0].None? then None
    else if |texts| == 1 then texts[0]
    else
      assert forall i :: 1 <= i < |texts| ==> texts[i] == texts[1..][i - 1];
      match JoinTexts(texts[1..])
      case None => None
      case Some(rest) => Some(texts[0].value + "," + rest)
  }

  /** The number `>` compares a value as: None for NaN, Err for the
      TypeError an object with an own `toString` key raises. An array is
      converted through its text, so `[]` is 0 and `[5]` is 5. */
  function ToNumber(p: Primitives, v: JsonValue): Result<Option<real>> {
    match v
    case JNull => Ok(Some(0.0))
    case JBool(b) => Ok(Some(if b then 1.0 else 0.0))
    case JNum(n) => Ok(Some(n))
    case JStr(s) => Ok(p.toNumber(s))
    case JArr(_) =>
      (match ElementText(p, v)
       case None => Err(CannotConvert())
       case Some(t) => Ok(p.toNumber(t)))
    case JObj(fs) => if "toString" in fs then Err(CannotConvert()) else Ok(None)
  }

  /** `payload.exp && Date.now() / 1000 > payload.exp`: false for a falsy
      or absent `exp` and for one that converts to NaN. */
  function ExpiryTest(p: Primitives, exp: Option<JsonValue>, now: Time): (r: Result<bool>)
    ensures exp.None? || !Truthy(exp.value) ==> r == Ok(false)
    ensures r.Err? ==> r.error == CannotConvert()
    ensures r == Ok(true) ==> exists n :: ToNumber(p, exp.value) == Ok(Some(n)) && (now as real) / 1000.0 > n
  {
    if exp.None? || !Truthy(exp.value) then Ok(false)
    else
      match ToNumber(p, exp.value)
      case Err(e) => Err(e)
      case Ok(None) => Ok(false)
      case Ok(Some(n)) => Ok((now as real) / 1000.0 > n)
  }

  /** The segment at `i` of a split token, or "" (falsy like undefined). */
  function Segment(parts: seq<string>, i: nat): string {
    if i < |parts| then parts[i] else ""
  }

  /** `verifyJwt(token)` at clock reading `now`: Ok(None) is `null`, Err the
      exception `JSON.parse`, reading `exp` of `null` or converting `exp`
      throws. */
  function VerifyJwt(p: Primitives, secret: string, token: string, now: Time): (r: Result<Option<JsonValue>>)
    ensures var parts := Split(token, '.');
            (Segment(parts, 0) == "" || Segment(parts, 1) == "" || Segment(parts, 2) == "") ==> r == Ok(None)
    ensures var parts := Split(token, '.');
            Segment(parts, 2) != Signature(p, secret, Segment(parts, 0), Segment(parts, 1)) ==> r == Ok(None)
    ensures r.Ok? && r.value.Some? ==> !r.value.value.JNull? && ExpiryTest(p, Field(r.value.value, "exp"), now) == Ok(false)
  {
    var parts := Split(token, '.');
    var encodedHeader, encodedPayload, signature := Segment(parts, 0), Segment(parts, 1), Segment(parts, 2);
    if encodedHeader == "" || encodedPayload == "" || signature == "" then Ok(None)
    else if signature != Signature(p, secret, encodedHeader, encodedPayload) then Ok(None)
    else
      match p.parse(Base64UrlDecodeSpec(p, encodedPayload))
      case None => Err(SyntaxError())
      case Some(payload) =>
        if payload.JNull? then Err(TypeError("Cannot read properties of null (reading 'exp')"))
        else
          var expired :- ExpiryTest(p, Field(payload, "exp"), now);
          if expired then Ok(None) else Ok(Some(payload))
  }

  /** A signed token has three non-empty, dot-free segments: the header,
      the payload with `exp`, and the signature over the first two; the
      payload segment decodes to the payload with `exp` whenever JSON
      carries it exactly. */
  lemma SignJwtShape(p: Primitives, secret: string, payload: map<string, JsonValue>, expiresInSec: int, now: Time)
    requires Base64Laws(p) && JsonLaw(p)
    requires ExactFields(payload) && SafeInteger(ExpiryAt(now, expiresInSec) as real)
    ensures var parts := Split(SignJwt(p, secret, payload, expiresInSec, now), '.');
            && |parts| == 3
            && parts[0] != "" && parts[1] != "" && parts[2] != ""
            && parts[2] == Signature(p, secret, parts[0], parts[1])
            && p.parse(Base64UrlDecodeSpec(p, parts[1])) == Some(WithExp(payload, ExpiryAt(now, expiresInSec)))
  {
    var v := WithExp(payload, ExpiryAt(now, expiresInSec));
    var h := Base64UrlEncode(p, p.stringify(HeaderJson()));
    var pl := Base64UrlEncode(p, p.stringify(v));
    var sig := Signature(p, secret, h, pl);
    WithExpExact(payload, ExpiryAt(now, expiresInSec));
    HeaderExact();
    SegmentShape(p, p.stringify(HeaderJson()));
    SegmentShape(p, p.stringify(v));
    SignatureShape(p, secret, h, pl);
    SplitJoin([h, pl, sig], '.');
    DecodeEncode(p, p.stringify(v));
  }

  lemma HeaderExact()
    ensures Exact(HeaderJson())
  {
    assert forall k :: k in HeaderJson().fields ==> HeaderJson().fields[k].JStr?;
  }

  /** Adding a safe-integer `exp` keeps a payload exact. */
  lemma WithExpExact(payload: map<string, JsonValue>, exp: int)
    requires ExactFields(payload) && SafeInteger(exp as real)
    ensures Exact(WithExp(payload, exp))
  {
    var fs := payload["exp" := JNum(exp as real)];
    forall k | k in fs ensures Exact(fs[k]) {
      if k != "exp" {
        assert fs[k] == payload[k];
      }
    }
  }

  /** An encoded non-empty text is a non-empty, dot-free segment. */
  lemma SegmentShape(p: Primitives, text: string)
    requires Base64Laws(p) && text != ""
    ensures Base64UrlEncode(p, text) != "" && '.' !in Base64UrlEncode(p, text)
  {
    EncodedNonEmpty(p.base64(text));
    UrlTextAvoids(p.base64(text), '.');
  }

  /** So is a signature. */
  lemma SignatureShape(p: Primitives, secret: string, h: string, pl: string)
    requires Base64Laws(p)
    ensures Signature(p, secret, h, pl) != "" && '.' !in Signature(p, secret, h, pl)
  {
    EncodedNonEmpty(p.hmac(secret, h + "." + pl));
    UrlTextAvoids(p.hmac(secret, h + "." + pl), '.');
  }

  /** Base64url text holds only the URL-safe alphabet, so it avoids every
      other character: the segment separator '.' and the space that ends
      an Authorization scheme among them. */
  lemma UrlTextAvoids(b: string, c: char)
    requires StandardBase64(b) && !StdChar(c) && c != '-' && c != '_'
    ensures c !in UrlEncodeText(b)
  {
    var n := TrailingPads(b);
    TrailingPadsSplit(b);
    RemoveAllPads(b[..|b| - n], n);
    var stripped := RemoveAll(b, '=');
    assert forall i :: 0 <= i < |stripped| ==> StdChar(stripped[i]);
    var w := Replace(stripped, '+', '-');
    var u := Replace(w, '/', '_');
    forall i | 0 <= i < |u| ensures u[i] != c {
      assert StdChar(stripped[i]);
    }
  }

  /** A token signed with the secret verifies to its payload plus `exp`
      until `exp` has passed, and to null afterwards (an `exp` of zero
      never expires). */
  lemma VerifySigned(p: Primitives, secret: string, payload: map<string, JsonValue>, expiresInSec: int,
                     now: Time, later: Time)
    requires Base64Laws(p) && JsonLaw(p)
    requires ExactFields(payload) && SafeInteger(ExpiryAt(now, expiresInSec) as real)
    ensures var exp := ExpiryAt(now, expiresInSec);
            VerifyJwt(p, secret, SignJwt(p, secret, payload, expiresInSec, now), later)
            == if exp != 0 && (later as real) / 1000.0 > exp as real then Ok(None)
               else Ok(Some(WithExp(payload, exp)))
  {
    var token := SignJwt(p, secret, payload, expiresInSec, now);
    var exp := ExpiryAt(now, expiresInSec);
    var v := WithExp(payload, exp);
    SignJwtShape(p, secret, payload, expiresInSec, now);
    var parts := Split(token, '.');
    assert Segment(parts, 0) == parts[0] && Segment(parts, 1) == parts[1] && Segment(parts, 2) == parts[2];
    VerifyWellSigned(p, secret, token, later, v);
    assert Field(v, "exp") == Some(JNum(exp as real));
    ExpiredNumber(p, exp, later);
  }

  /** A token of three non-empty segments whose signature matches and whose
      payload parses to a non-null value verifies to that value, unless it
      has expired or its `exp` cannot be converted. */
  lemma VerifyWellSigned(p: Primitives, secret: string, token: string, now: Time, v: JsonValue)
    requires var parts := Split(token, '.');
             && Segment(parts, 0) != "" && Segment(parts, 1) != "" && Segment(parts, 2) != ""
             && Segment(parts, 2) == Signature(p, secret, Segment(parts, 0), Segment(parts, 1))
             && p.parse(Base64UrlDecodeSpec(p, Segment(parts, 1))) == Some(v)
    requires !v.JNull?
    ensures VerifyJwt(p, secret, token, now) ==
              match ExpiryTest(p, Field(v, "exp"), now)
              case Err(e) => Err(e)
              case Ok(expired) => if expired then Ok(None) else Ok(Some(v))
  {
  }

  /** A numeric `exp` has passed exactly when it is non-zero and the clock,
      in seconds, is beyond it. */
  lemma ExpiredNumber(p: Primitives, exp: int, now: Time)
    ensures ExpiryTest(p, Some(JNum(exp as real)), now) == Ok(exp != 0 && (now as real) / 1000.0 > exp as real)
  {
  }

  /** An `exp` held as text, or as an array of one text or number, expires
      like the number it converts to; an empty array converts to 0, so it
      expires once the clock is past the epoch. */
  lemma ConvertedExpiry(p: Primitives, s: string, n: real, now: Time)
    requires p.toNumber(s) == Some(n)
    ensures s != "" ==> ExpiryTest(p, Some(JStr(s)), now) == Ok((now as real) / 1000.0 > n)
    ensures ExpiryTest(p, Some(JArr([JStr(s)])), now) == Ok((now as real) / 1000.0 > n)
    ensures p.stringify(JNum(n)) == s ==> ExpiryTest(p, Some(JArr([JNum(n)])), now) == Ok((now as real) / 1000.0 > n)
    ensures s == "" ==> ExpiryTest(p, Some(JArr([])), now) == Ok((now as real) / 1000.0 > n)
  {
    assert ElementText(p, JArr([JStr(s)])) == JoinTexts([Some(s)]);
    assert ElementText(p, JArr([JNum(n)])) == JoinTexts([Some(p.stringify(JNum(n)))]);
    assert ElementText(p, JArr([])) == Some("");
  }

  /** An object `exp` converts to NaN and never expires, unless an own
      `toString` key makes the conversion throw. */
  lemma ObjectExpiry(p: Primitives, fs: map<string, JsonValue>, now: Time)
    ensures ExpiryTest(p, Some(JObj(fs)), now) == if "toString" in fs then Err(CannotConvert()) else Ok(false)
  {
  }

  /** A token signed by the secret whose `exp` is the text "1" is refused
      once the clock passes one second, as JavaScript's conversion makes it. */
  lemma TextExpRefused(p: Primitives, secret: string, token: string, now: Time, fields: map<string, JsonValue>)
    requires p.toNumber("1") == Some(1.0) && now > 1000
    requires "exp" in fields && fields["exp"] == JStr("1")
    requires var parts := Split(token, '.');
             && Segment(parts, 0) != "" && Segment(parts, 1) != "" && Segment(parts, 2) != ""
             && Segment(parts, 2) == Signature(p, secret, Segment(parts, 0), Segment(parts, 1))
             && p.parse(Base64UrlDecodeSpec(p, Segment(parts, 1))) == Some(JObj(fields))
    ensures VerifyJwt(p, secret, token, now) == Ok(None)
  {
    VerifyWellSigned(p, secret, token, now, JObj(fields));
    ConvertedExpiry(p, "1", 1.0, now);
    assert (now as real) / 1000.0 > 1.0;
  }

  /** A token whose signature segment is not the one the secret gives for
      its first two segments never verifies. */
  lemma VerifyRejectsForged(p: Primitives, secret: string, encodedHeader: string, encodedPayload: string,
                            signature: string, now: Time)
    requires '.' !in encodedHeader && '.' !in encodedPayload && '.' !in signature
    requires signature != Signature(p, secret, encodedHeader, encodedPayload)
    ensures VerifyJwt(p, secret, Join([encodedHeader, encodedPayload, signature], '.'), now) == Ok(None)
  {
    SplitJoin([encodedHeader, encodedPayload, signature], '.');
  }

  /** A token signed with the default lifetime verifies to its payload plus
      `exp` for the fifteen minutes it lasts. */
  lemma DefaultLifetime(p: Primitives, secret: string, payload: map<string, JsonValue>, now: Time, later: Time)
    requires Base64Laws(p) && JsonLaw(p) && ExactFields(payload)
    requires now >= 0 && now / 1000 + DefaultExpiresInSec <= MaxSafeInteger
    requires now <= later < (now / 1000 + DefaultExpiresInSec) * 1000
    ensures VerifyJwt(p, secret, SignJwtDefault(p, secret, payload, now), later)
            == Ok(Some(WithExp(payload, now / 1000 + DefaultExpiresInSec)))
  {
    var exp := now / 1000 + DefaultExpiresInSec;
    VerifySigned(p, secret, payload, DefaultExpiresInSec, now, later);
    assert (later as real) / 1000.0 <= exp as real by {
      assert (later as real) < (exp * 1000) as real;
    }
  }

  /** `createTokens(user_id, role)`: a random refresh token, passed in, and
      an access token that lasts an hour. */
  datatype Tokens = Tokens(refreshToken: string, accessToken: string)

  function AccessClaims(userId: int, role: string): map<string, JsonValue> {
    map["user_id" := JNum(userId as real), "role" := JStr(role)]
  }

  function CreateTokens(p: Primitives, secret: string, userId: int, role: string, now: Time,
                        refreshToken: string): (t: Tokens)
    ensures t.refreshToken == refreshToken
  {
    Tokens(refreshToken, SignJwt(p, secret, AccessClaims(userId, role), AccessTokenSec, now))
  }

  /** The claims of a safe-integer user id are carried exactly. */
  lemma ClaimsExact(userId: int, role: string)
    requires -MaxSafeInteger <= userId <= MaxSafeInteger
    ensures ExactFields(AccessClaims(userId, role))
  {
    var m := AccessClaims(userId, role);
    assert (userId as real).Floor == userId;
    forall k | k in m ensures Exact(m[k]) {
      if k == "user_id" {
        assert m[k] == JNum(userId as real);
      }
    }
  }

  /** The access token verifies to `{user_id, role, exp}` for an hour. */
  lemma AccessTokenLastsAnHour(p: Primitives, secret: string, userId: int, role: string, now: Time,
                               refreshToken: string, later: Time)
    requires Base64Laws(p) && JsonLaw(p) && -MaxSafeInteger <= userId <= MaxSafeInteger
    requires now >= 0 && now / 1000 + AccessTokenSec <= MaxSafeInteger
    requires now <= later < (now / 1000 + AccessTokenSec) * 1000
    ensures VerifyJwt(p, secret, CreateTokens(p, secret, userId, role, now, refreshToken).accessToken, later)
            == Ok(Some(WithExp(AccessClaims(userId, role), now / 1000 + AccessTokenSec)))
  {
    ClaimsExact(userId, role);
    VerifySigned(p, secret, AccessClaims(userId, role), AccessTokenSec, now, later);
    var exp := now / 1000 + AccessTokenSec;
    assert (later as real) / 1000.0 <= exp as real by {
      assert (later as real) < (exp * 1000) as real;
    }
  }
}
