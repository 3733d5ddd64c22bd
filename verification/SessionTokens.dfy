/** Session tokens of src/core/auth.py: three dot-separated base64url parts
    (RFC 7515 section 7.1) under an HMAC. */
module SessionTokens {
  import opened Common
  import opened Text
  import Base64Url

  datatype Operator = Operator(operatorId: string, orgId: string)

  datatype Principal = Principal(operatorId: string, orgId: string)

  datatype Claims = Claims(sub: string, orgId: string, iat: int, exp: int)

  /** What `json.loads` gave, as `verify_session_token` goes on to read it: `exp` is
      `None` when it is missing or no number, and the ids went through `str`. */
  datatype Parsed = Parsed(exp: Option<real>, sub: string, orgId: string)

  /** HMAC-SHA256 and JSON are taken as given. `header` is the encoded constant header. */
  datatype Crypto = Crypto(
    hmac: (string, string) -> Bytes,
    header: Bytes,
    dumps: Claims -> Bytes,
    loads: Bytes -> Option<Parsed>)
  {
    /** Parsing undoes printing on the claims the module issues. */
    ghost predicate Lawful() {
      forall c :: loads(dumps(c)) == Some(Parsed(Some(c.exp as real), c.sub, c.orgId))
    }
  }

  datatype SessionToken = SessionToken(token: string, expiresAt: real)

  /** `Refused` is the documented AuthenticationError; `Escapes` is an exception that is
      not one, from encoding a signing input outside ASCII. */
  datatype Verdict = Accepted(principal: Principal) | Refused | Escapes

  /** Python's `int` on a float: truncation toward zero. */
  function Truncate(x: real): int {
    if x >= 0.0 then x.Floor else -(-x).Floor
  }

  /** The pattern `^[a-z0-9_-]{1,64}$` of both ids. */
  predicate IsIdentifier(s: string) {
    1 <= |s| <= 64 && forall c :: c in s ==> 'a' <= c <= 'z' || '0' <= c <= '9' || c == '_' || c == '-'
  }

  function SigningInput(header: Bytes, payload: Bytes): string {
    Base64Url.Encode(header) + "." + Base64Url.Encode(payload)
  }

  /** `issue_session_token`, at wall-clock time `now`. */
  function Issue(c: Crypto, op: Operator, secret: string, now: real, ttl: int): SessionToken {
    var expiresAt := now + ttl as real;
    var claims := Claims(op.operatorId, op.orgId, Truncate(now), Truncate(expiresAt));
    var input := SigningInput(c.header, c.dumps(claims));
    SessionToken(input + "." + Base64Url.Encode(c.hmac(secret, input)), expiresAt)
  }

  /** `verify_session_token`, at wall-clock time `now`. */
  function Verify(c: Crypto, token: string, secret: string, now: real): Verdict {
    var parts := Split(token, '.');
    if |parts| != 3 then Refused
    else if !Base64Url.IsAscii(parts[0] + "." + parts[1]) then Escapes
    else
      var expected := c.hmac(secret, parts[0] + "." + parts[1]);
      match Base64Url.Decode(parts[2])
      case None => Refused
      case Some(actual) =>
        if expected != actual then Refused
        else
          match Base64Url.Decode(parts[1])
          case None => Refused
          case Some(payload) => VerifyClaims(c.loads(payload), now)
  }

  function VerifyClaims(claims: Option<Parsed>, now: real): Verdict {
    match claims
    case None => Refused
    case Some(p) =>
      if p.exp.None? || p.exp.value < now then Refused
      else if !IsIdentifier(p.sub) || !IsIdentifier(p.orgId) then Refused
      else Accepted(Principal(p.sub, p.orgId))
  }

  /** The framing always splits back into its three parts. */
  lemma FramingSplits(a: Bytes, b: Bytes, d: Bytes)
    ensures Split(SigningInput(a, b) + "." + Base64Url.Encode(d), '.')
         == [Base64Url.Encode(a), Base64Url.Encode(b), Base64Url.Encode(d)]
  {
    hide Base64Url.Encode, Base64Url.Decode, Split;
    var x, y, z := Base64Url.Encode(a), Base64Url.Encode(b), Base64Url.Encode(d);
    Base64Url.RoundTrip(a);
    Base64Url.RoundTrip(b);
    Base64Url.RoundTrip(d);
    SplitField(x, '.', y + "." + z);
    SplitField(y, '.', z);
    SplitLast(z, '.');
    assert SigningInput(a, b) + "." + z == x + ['.'] + (y + "." + z);
    assert y + "." + z == y + ['.'] + z;
  }

  lemma AsciiFraming(a: Bytes, b: Bytes)
    ensures Base64Url.IsAscii(SigningInput(a, b))
  {
    Base64Url.PaddingRestored(a);
    Base64Url.PaddingRestored(b);
    hide Base64Url.Encode;
  }

  /** Whatever the header, payload and signature bytes, a token framed and signed under
      the same key is judged on its claims alone. */
  lemma SignedIsJudgedOnClaims(c: Crypto, payload: Bytes, secret: string, now: real)
    ensures var input := SigningInput(c.header, payload);
      Verify(c, input + "." + Base64Url.Encode(c.hmac(secret, input)), secret, now)
      == VerifyClaims(c.loads(payload), now)
  {
    var input := SigningInput(c.header, payload);
    var mac := c.hmac(secret, input);
    AsciiFraming(c.header, payload);
    FramingSplits(c.header, payload, mac);
    Base64Url.RoundTrip(payload);
    Base64Url.RoundTrip(mac);
    hide Base64Url.Encode, Base64Url.Decode, Split, VerifyClaims, Base64Url.IsAscii;
    var parts := Split(input + "." + Base64Url.Encode(mac), '.');
    assert parts[0] + "." + parts[1] == input;
  }

  /** What an issued token carries, part by part: the header, the operator's claims with
      issue time and expiry truncated, and the MAC of both; and the expiry it reports. */
  lemma IssuedTokenCarries(c: Crypto, op: Operator, secret: string, issued: real, ttl: int)
    ensures var t := Issue(c, op, secret, issued, ttl); var parts := Split(t.token, '.');
      && t.expiresAt == issued + ttl as real
      && |parts| == 3
      && Base64Url.Decode(parts[0]) == Some(c.header)
      && Base64Url.Decode(parts[1])
         == Some(c.dumps(Claims(op.operatorId, op.orgId, Truncate(issued), Truncate(issued + ttl as real))))
      && Base64Url.Decode(parts[2]) == Some(c.hmac(secret, parts[0] + "." + parts[1]))
  {
    var payload := c.dumps(Claims(op.operatorId, op.orgId, Truncate(issued), Truncate(issued + ttl as real)));
    var input := SigningInput(c.header, payload);
    FramingSplits(c.header, payload, c.hmac(secret, input));
    Base64Url.RoundTrip(c.header);
    Base64Url.RoundTrip(payload);
    Base64Url.RoundTrip(c.hmac(secret, input));
    hide Base64Url.Encode, Base64Url.Decode, Split, Truncate;
  }

  /** Truncation is toward zero: the fraction goes. */
  lemma TruncateIs(x: real)
    ensures x >= 0.0 ==> x - 1.0 < Truncate(x) as real <= x
    ensures x < 0.0 ==> x <= Truncate(x) as real < x + 1.0
  {
  }

  /** Verifying an issued token under the same key gives back the operator exactly until
      issue time plus lifetime, truncated. That is never later than the expiry reported,
      unless it lies before the epoch, where truncation rounds up. */
  lemma IssuedTokensVerify(c: Crypto, op: Operator, secret: string, issued: real, ttl: int, now: real)
    requires c.Lawful() && IsIdentifier(op.operatorId) && IsIdentifier(op.orgId)
    ensures var t := Issue(c, op, secret, issued, ttl); var end := issued + ttl as real;
      && t.expiresAt == end
      && Verify(c, t.token, secret, now)
         == (if now <= Truncate(end) as real then Accepted(Principal(op.operatorId, op.orgId)) else Refused)
      && (end >= 0.0 ==> end - 1.0 < Truncate(end) as real <= end)
      && (end < 0.0 ==> end <= Truncate(end) as real < end + 1.0)
  {
    hide Verify, SigningInput, IsIdentifier;
    TruncateIs(issued + ttl as real);
    var claims := Claims(op.operatorId, op.orgId, Truncate(issued), Truncate(issued + ttl as real));
    SignedIsJudgedOnClaims(c, c.dumps(claims), secret, now);
  }

  /** 1 to 64 ASCII lower-case letters, digits, underscores and dashes, by code point. */
  predicate WellFormedId(id: string) {
    && 1 <= |id| && |id| <= 64
    && forall i :: 0 <= i < |id| ==>
         97 <= id[i] as int <= 122 || 48 <= id[i] as int <= 57 || id[i] as int == 95 || id[i] as int == 45
  }

  lemma IdentifierExactly(id: string)
    ensures IsIdentifier(id) <==> WellFormedId(id)
  {
    assert forall i :: 0 <= i < |id| ==> id[i] in id;
    if WellFormedId(id) {
      forall c | c in id ensures 'a' <= c <= 'z' || '0' <= c <= '9' || c == '_' || c == '-' {
        var i :| 0 <= i < |id| && id[i] == c;
      }
    }
  }

  /** Token `a.b.d` is signed by this key over ASCII parts and its payload reads as `p`. */
  ghost predicate SignedOver(c: Crypto, token: string, secret: string, a: string, b: string, d: string, p: Parsed) {
    && token == a + "." + b + "." + d && '.' !in a && '.' !in b && '.' !in d
    && Base64Url.IsAscii(a) && Base64Url.IsAscii(b)
    && Base64Url.Decode(d) == Some(c.hmac(secret, a + "." + b))
    && Base64Url.Decode(b).Some? && c.loads(Base64Url.Decode(b).value) == Some(p)
  }

  /** A token is accepted if and only if it is three parts under its own key's MAC, whose
      payload holds an expiry that has not passed and two well-formed ids; the principal
      is those ids. */
  lemma AcceptedExactly(c: Crypto, token: string, secret: string, now: real, who: Principal)
    ensures Verify(c, token, secret, now) == Accepted(who) <==>
      exists a: string, b: string, d: string, p: Parsed ::
        && SignedOver(c, token, secret, a, b, d, p)
        && p.exp.Some? && now <= p.exp.value
        && WellFormedId(p.sub) && WellFormedId(p.orgId) && who == Principal(p.sub, p.orgId)
  {
    IdentifierExactly(who.operatorId);
    IdentifierExactly(who.orgId);
    hide Base64Url.Decode, IsIdentifier, WellFormedId, Base64Url.IsAscii;
    if Verify(c, token, secret, now) == Accepted(who) {
      var p := AcceptedIsSigned(c, token, secret, now);
    }
    forall a: string, b: string, d: string, p: Parsed
      | SignedOver(c, token, secret, a, b, d, p) && p.exp.Some? && now <= p.exp.value
        && WellFormedId(p.sub) && WellFormedId(p.orgId) && who == Principal(p.sub, p.orgId)
      ensures Verify(c, token, secret, now) == Accepted(who)
    {
      SignedIsVerified(c, token, secret, now, a, b, d, p);
    }
  }

  lemma AcceptedIsSigned(c: Crypto, token: string, secret: string, now: real) returns (p: Parsed)
    requires Verify(c, token, secret, now).Accepted?
    ensures exists a: string, b: string, d: string :: SignedOver(c, token, secret, a, b, d, p)
    ensures p.exp.Some? && now <= p.exp.value && IsIdentifier(p.sub) && IsIdentifier(p.orgId)
    ensures Verify(c, token, secret, now) == Accepted(Principal(p.sub, p.orgId))
  {
    hide Base64Url.Decode, IsIdentifier, Base64Url.IsAscii;
    var parts := Split(token, '.');
    JoinThree(token, '.');
    PartsAreFree(token, '.');
    AsciiPair(parts[0], parts[1]);
    p := c.loads(Base64Url.Decode(parts[1]).value).value;
    assert token == parts[0] + "." + parts[1] + "." + parts[2];
    hide Split;
    assert SignedOver(c, token, secret, parts[0], parts[1], parts[2], p);
  }

  lemma SignedIsVerified(c: Crypto, token: string, secret: string, now: real, a: string, b: string, d: string, p: Parsed)
    requires SignedOver(c, token, secret, a, b, d, p)
    ensures Verify(c, token, secret, now) == VerifyClaims(Some(p), now)
  {
    ThreeParts(a, b, d);
    AsciiPair(a, b);
    hide Split, Base64Url.Decode, Base64Url.IsAscii, VerifyClaims;
  }

  lemma ThreeParts(a: string, b: string, d: string)
    requires '.' !in a && '.' !in b && '.' !in d
    ensures Split(a + "." + b + "." + d, '.') == [a, b, d]
  {
    SplitField(a, '.', b + "." + d);
    SplitField(b, '.', d);
    SplitLast(d, '.');
    hide Split;
    assert a + "." + b + "." + d == a + ['.'] + (b + "." + d);
    assert b + "." + d == b + ['.'] + d;
  }

  lemma {:induction false} PartsAreFree(text: string, sep: char)
    ensures forall part :: part in Split(text, sep) ==> sep !in part
  {
    if text != [] {
      PartsAreFree(text[1..], sep);
      var rest := Split(text[1..], sep);
      assert rest[0] in rest;
      forall part | part in Split(text, sep) ensures sep !in part {
        if text[0] == sep {
          assert part == "" || part in rest;
        } else {
          assert part == [text[0]] + rest[0] || part in rest[1..];
          assert forall x :: x in rest[1..] ==> x in rest;
        }
      }
    }
  }

  /** Only three-part tokens are ever accepted, and only under their own key's MAC. */
  lemma AcceptedMeansSigned(c: Crypto, token: string, secret: string, now: real)
    requires Verify(c, token, secret, now).Accepted?
    ensures multiset(token)['.'] == 2
    ensures exists a: string, b: string, d: string ::
      token == a + "." + b + "." + d && Base64Url.Decode(d) == Some(c.hmac(secret, a + "." + b))
  {
    hide Base64Url.Decode;
    SplitCount(token, '.');
    var parts := Split(token, '.');
    JoinThree(token, '.');
    assert token == parts[0] + "." + parts[1] + "." + parts[2];
  }

  /** An exception other than the documented one escapes exactly for three-part tokens
      with a character outside ASCII before the second dot. */
  lemma EscapesExactly(c: Crypto, a: string, b: string, d: string, secret: string, now: real)
    requires '.' !in a && '.' !in b && '.' !in d
    ensures Verify(c, a + "." + b + "." + d, secret, now).Escapes?
            <==> !Base64Url.IsAscii(a) || !Base64Url.IsAscii(b)
  {
    hide Base64Url.Decode;
    ThreeParts(a, b, d);
    hide Split;
    AsciiPair(a, b);
    hide Base64Url.IsAscii;
  }

  /** One such token, e acute before the first dot, whatever the key and the clock. */
  lemma AccentedTokenEscapes(c: Crypto, secret: string, now: real)
    ensures Verify(c, "\U{e9}.a.b", secret, now) == Escapes
  {
    var a := "\U{e9}";
    EscapesExactly(c, a, "a", "b", secret, now);
    hide Verify;
    assert a[0] in a && !(a[0] < 128 as char);
    assert !Base64Url.IsAscii(a);
    assert a + "." + "a" + "." + "b" == "\U{e9}.a.b";
  }

  lemma AsciiPair(a: string, b: string)
    ensures Base64Url.IsAscii(a + "." + b) <==> Base64Url.IsAscii(a) && Base64Url.IsAscii(b)
  {
    assert forall c :: c in a + "." + b <==> c in a || c == '.' || c in b;
    assert '.' < 128 as char;
  }

  /** The parts of a split, joined by the separator again, are the text. */
  function Join(parts: seq<string>, sep: char): string {
    if parts == [] then "" else if |parts| == 1 then parts[0] else parts[0] + [sep] + Join(parts[1..], sep)
  }

  lemma {:induction false} SplitJoins(text: string, sep: char)
    ensures Join(Split(text, sep), sep) == text
  {
    if text != [] {
      SplitJoins(text[1..], sep);
      var rest := Split(text[1..], sep);
      assert text == [text[0]] + text[1..];
      if text[0] == sep {
        assert ([""] + rest)[1..] == rest;
      } else if |rest| > 1 {
        assert ([[text[0]] + rest[0]] + rest[1..])[1..] == rest[1..];
      }
    }
  }

  lemma JoinThree(text: string, sep: char)
    requires |Split(text, sep)| == 3
    ensures var p := Split(text, sep); text == p[0] + [sep] + p[1] + [sep] + p[2]
  {
    SplitJoins(text, sep);
    var p := Split(text, sep);
    hide Split;
    assert p[1..][1..] == [p[2]] && p[1..][0] == p[1] && |p[1..]| == 2;
    assert Join([p[2]], sep) == p[2];
    assert Join(p[1..], sep) == p[1] + [sep] + p[2];
    assert Join(p, sep) == p[0] + [sep] + Join(p[1..], sep);
  }
}
