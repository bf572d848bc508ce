/** Bearer-token validation (TokenValidate): the configuration check at
    start-up, the string handling around the JWT parser, and the mapping of
    the parser's outcome to a verdict or an error. The parser (signature
    and claim checks) and the start-up key derivation (Base64 decoding and
    the weak-key check) are parameters. */
module TokenValidate {
  import opened Wrappers

  /** The prefix an Authorization header value may carry. */
  const BearerPrefix: string := "Bearer "

  /** The HMAC signing key derived from the configured secret. */
  datatype SigningKey = SigningKey(bytes: seq<int>)

  /** A validator configured with the key derived at start-up. */
  datatype TokenValidator = TokenValidator(key: SigningKey)

  /** The library's key derivation from the configured Base64 secret
      (Base64 decoding, then an HMAC key of at least 256 bits): the key, or
      the message of the exception it throws for bad Base64 or a weak key. */
  type KeyDerivation = string -> Result<SigningKey, string>

  /** What the JWT library's parseClaimsJws does with a compact token:
      yields the claims (of which only the expiry, in milliseconds since the
      epoch, matters here, absent when the token has no "exp" claim) or
      throws. The library exception kinds are its ExpiredJwtException,
      MalformedJwtException, SignatureException, any other JwtException, and
      exceptions outside the JwtException family (the library's
      IllegalArgumentException for an empty string, for one). The library
      reads the clock itself (for the "exp" and "nbf" claims), so the
      outcome may depend on the time. */
  datatype ParseOutcome =
    | Parsed(expiry: Option<int>)
    | ExpiredJwt
    | MalformedJwt
    | BadSignature
    | OtherJwtFailure(message: string)
    | NonJwtFailure(message: string)

  /** The JWT library, given the signing key, the compact token and the
      current time. */
  type Parser = (SigningKey, string, int) -> ParseOutcome

  /** Why validation did not produce a verdict: the IllegalArgumentException
      validateToken raises itself, an exception of the parser that it does
      not catch and so passes on, or the NullPointerException of reading a
      missing expiry. */
  datatype TokenError =
    | Rejected(message: string)
    | PassedOn(message: string)
    | MissingExpiry

  const NullOrEmptyMessage: string := "Token is null or empty."
  const ExpiredMessage: string := "Token has expired."
  const FormatMessage: string := "Invalid token format."
  const SignatureMessage: string := "Invalid token signature."
  const OtherFailurePrefix: string := "Token validation failed: "
  const MissingSecretMessage: string := "JWT secret key is missing in configuration."

  /** True when the configured secret is null or empty. */
  predicate MissingSecret(secret: Option<string>)
  {
    secret == None || secret == Some("")
  }

  /** init: a missing or empty configured secret is a fatal configuration
      error raised before any key derivation; otherwise start-up fails
      exactly when the derivation fails, with its message, and succeeds with
      the derived key. */
  function Init(secret: Option<string>, derive: KeyDerivation): (r: Result<TokenValidator, string>)
    ensures MissingSecret(secret) ==> r == Failure(MissingSecretMessage)
    ensures r.Success? <==> !MissingSecret(secret) && derive(secret.value).Success?
    ensures r.Success? ==> r.value.key == derive(secret.value).value
    ensures !MissingSecret(secret) && derive(secret.value).Failure? ==>
              r == Failure(derive(secret.value).error)
  {
    match secret
    case None => Failure(MissingSecretMessage)
    case Some(s) =>
      if s == "" then Failure(MissingSecretMessage)
      else
        match derive(s)
        case Success(key) => Success(TokenValidator(key))
        case Failure(e) => Failure(e)
  }

  /** A missing secret fails start-up whatever the key derivation would do:
      the derivation is never consulted. */
  lemma InitGuardIgnoresDerivation(secret: Option<string>, d1: KeyDerivation, d2: KeyDerivation)
    requires MissingSecret(secret)
    ensures Init(secret, d1) == Init(secret, d2)
    ensures Init(secret, d1) == Failure(MissingSecretMessage)
  {}

  /** String.startsWith("Bearer "), case-sensitive and including the space. */
  predicate HasBearerPrefix(t: string)
  {
    BearerPrefix <= t
  }

  /** Removes one leading "Bearer " when present. */
  function StripBearer(t: string): (r: string)
    ensures HasBearerPrefix(t) ==> BearerPrefix + r == t
    ensures !HasBearerPrefix(t) ==> r == t
  {
    if HasBearerPrefix(t) then t[|BearerPrefix|..] else t
  }

  /** The verdict or error for one parser outcome at time `now`. */
  function Interpret(o: ParseOutcome, now: int): (r: Result<bool, TokenError>)
    ensures r.Success? <==> o.Parsed? && o.expiry.Some?
    ensures r.Success? ==> (r.value <==> o.expiry.value > now)
    ensures o.Parsed? && o.expiry.None? ==> r == Failure(MissingExpiry)
    ensures o.ExpiredJwt? ==> r == Failure(Rejected(ExpiredMessage))
    ensures o.MalformedJwt? ==> r == Failure(Rejected(FormatMessage))
    ensures o.BadSignature? ==> r == Failure(Rejected(SignatureMessage))
    ensures o.OtherJwtFailure? ==> r == Failure(Rejected(OtherFailurePrefix + o.message))
    ensures o.NonJwtFailure? ==> r == Failure(PassedOn(o.message))
  {
    match o
    case Parsed(expiry) =>
      (match expiry
       case None => Failure(MissingExpiry)
       case Some(e) => Success(e > now))
    case ExpiredJwt => Failure(Rejected(ExpiredMessage))
    case MalformedJwt => Failure(Rejected(FormatMessage))
    case BadSignature => Failure(Rejected(SignatureMessage))
    case OtherJwtFailure(msg) => Failure(Rejected(OtherFailurePrefix + msg))
    case NonJwtFailure(msg) => Failure(PassedOn(msg))
  }

  /** validateToken: reject a null or empty token, strip one "Bearer ",
      parse with the configured key, and compare the expiry with `now`
      (milliseconds since the epoch). */
  function ValidateToken(v: TokenValidator, token: Option<string>, parse: Parser, now: int): (r: Result<bool, TokenError>)
    ensures token == None || token == Some("") ==> r == Failure(Rejected(NullOrEmptyMessage))
    ensures token.Some? && token.value != "" ==>
              r == Interpret(parse(v.key, StripBearer(token.value), now), now)
    ensures r == Success(true) <==>
              && token.Some? && token.value != ""
              && var o := parse(v.key, StripBearer(token.value), now);
                 o.Parsed? && o.expiry.Some? && o.expiry.value > now
    ensures r == Success(false) <==>
              && token.Some? && token.value != ""
              && var o := parse(v.key, StripBearer(token.value), now);
                 o.Parsed? && o.expiry.Some? && o.expiry.value <= now
  {
    match token
    case None => Failure(Rejected(NullOrEmptyMessage))
    case Some(t) =>
      if t == "" then Failure(Rejected(NullOrEmptyMessage))
      else Interpret(parse(v.key, StripBearer(t), now), now)
  }

  /** True of the outcomes the parser reports by throwing. */
  predicate IsParseFailure(o: ParseOutcome)
  {
    !o.Parsed?
  }

  /** Stripping undoes prefixing with "Bearer ", for every string. */
  lemma StripBearerAfterPrefix(t: string)
    ensures StripBearer(BearerPrefix + t) == t
  {}

  /** A non-empty token without the prefix validates exactly as the same
      token behind "Bearer " does. */
  lemma BearerPrefixIsTransparent(v: TokenValidator, t: string, parse: Parser, now: int)
    requires t != ""
    requires !HasBearerPrefix(t)
    ensures ValidateToken(v, Some(BearerPrefix + t), parse, now) == ValidateToken(v, Some(t), parse, now)
  {}

  /** Only one prefix is removed: "Bearer Bearer x" reaches the parser as
      "Bearer x". */
  lemma OnlyOnePrefixStripped(v: TokenValidator, t: string, parse: Parser, now: int)
    ensures ValidateToken(v, Some(BearerPrefix + BearerPrefix + t), parse, now)
            == Interpret(parse(v.key, BearerPrefix + t, now), now)
  {
    StripBearerAfterPrefix(BearerPrefix + t);
    assert BearerPrefix + BearerPrefix + t == BearerPrefix + (BearerPrefix + t);
  }

  /** The emptiness check looks at the raw value, so "Bearer " alone is not
      refused by it and the parser receives the empty string. */
  lemma BareBearerReachesParser(v: TokenValidator, parse: Parser, now: int)
    ensures ValidateToken(v, Some(BearerPrefix), parse, now) == Interpret(parse(v.key, "", now), now)
  {}

  /** A parser failure never yields a verdict. */
  lemma ParseFailureIsError(v: TokenValidator, t: string, parse: Parser, now: int)
    requires t != ""
    requires IsParseFailure(parse(v.key, StripBearer(t), now))
    ensures ValidateToken(v, Some(t), parse, now).Failure?
  {}

  /** Different parser failures produce different errors, so each failure
      kind can be told apart from the error alone. */
  lemma ParseFailuresDistinct(o1: ParseOutcome, o2: ParseOutcome, now: int)
    requires IsParseFailure(o1) && IsParseFailure(o2)
    requires o1 != o2
    ensures Interpret(o1, now) != Interpret(o2, now)
  {
    if o1.OtherJwtFailure? && o2.OtherJwtFailure? {
      assert (OtherFailurePrefix + o1.message)[|OtherFailurePrefix|..] == o1.message;
      assert (OtherFailurePrefix + o2.message)[|OtherFailurePrefix|..] == o2.message;
    } else if o1.OtherJwtFailure? || o2.OtherJwtFailure? {
      var m := if o1.OtherJwtFailure? then o1.message else o2.message;
      assert (OtherFailurePrefix + m)[0] == 'T';
      assert (OtherFailurePrefix + m)[6] == 'v';
      assert ExpiredMessage[6] != 'v';
    }
  }

  /** For a fixed parse result, the expiry comparison accepts at every
      earlier time whatever it accepts now. (The library's own clock checks
      are part of the parse result and are not covered.) */
  lemma ExpiryCheckIsMonotone(o: ParseOutcome, now: int, earlier: int)
    requires earlier <= now
    requires Interpret(o, now) == Success(true)
    ensures Interpret(o, earlier) == Success(true)
  {}

  /** An expiry exactly equal to `now` counts as expired. */
  lemma ExpiryAtNowIsInvalid(v: TokenValidator, t: string, parse: Parser, now: int)
    requires t != ""
    requires parse(v.key, StripBearer(t), now) == Parsed(Some(now))
    ensures ValidateToken(v, Some(t), parse, now) == Success(false)
  {}
}
