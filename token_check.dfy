/**
 * The token-validation front end of UserServiceImpl: `isTokenValid` and
 * `validateTokenDetails`.
 *
 * Both reject a null or blank token, strip an optional "Bearer " prefix and
 * hand the rest to the JWT parser (signature and expiry check under the one
 * shared secret).  The parser and the Jackson decoder of the "authorities"
 * claim are foreign code; they are parameters here, so every property below
 * holds whatever they do.
 */
module TokenCheck {
  import opened Wrappers

  /** The prefix of an authorization header value (TokenJwtConfig.PREFIX_TOKEN). */
  const BearerPrefix: string := "Bearer "

  /** java.lang.Character.isWhitespace: the Unicode space, line and paragraph
      separators except the three no-break spaces, and the ASCII controls
      HT, LF, VT, FF, CR and FS, GS, RS, US. */
  predicate IsWhitespace(c: char) {
    || c == ' ' || c == '\t' || c == '\n' || c == '\U{000B}' || c == '\U{000C}' || c == '\r'
    || ('\U{001C}' <= c <= '\U{001F}')
    || c == '\U{1680}'
    || ('\U{2000}' <= c <= '\U{2006}') || ('\U{2008}' <= c <= '\U{200A}')
    || c == '\U{2028}' || c == '\U{2029}' || c == '\U{205F}' || c == '\U{3000}'
  }

  /** String.isBlank: empty or whitespace only. */
  predicate IsBlank(s: string) {
    forall i :: 0 <= i < |s| ==> IsWhitespace(s[i])
  }

  /** A token the two entry points hand on: neither null nor blank. */
  predicate Presented(token: Option<string>) {
    token.Some? && !IsBlank(token.value)
  }

  /** `token.startsWith(PREFIX) ? token.substring(PREFIX.length()) : token` */
  function StripBearer(token: string): (raw: string)
    ensures BearerPrefix <= token ==> BearerPrefix + raw == token
    ensures !(BearerPrefix <= token) ==> raw == token
    ensures |raw| <= |token|
  {
    if BearerPrefix <= token then token[|BearerPrefix|..] else token
  }

  /** The exceptions JJWT's parseSignedClaims throws, by the catch clause that
      names them: SecurityException (bad signature), MalformedJwtException,
      UnsupportedJwtException, IllegalArgumentException (e.g. an empty token),
      ExpiredJwtException, and every other JwtException (PrematureJwtException
      for a token used before its "nbf" claim, for one). */
  datatype JwtFailure =
    | SignatureFailure
    | MalformedToken
    | UnsupportedToken
    | IllegalArgument
    | ExpiredToken
    | OtherJwtFailure

  /** The two claims the front end reads.  `authorities` is the claim's
      `toString()`, None when the claim is absent. */
  datatype Claims = Claims(subject: Option<string>, authorities: Option<string>)

  datatype ParseResult = Parsed(claims: Claims) | Rejected(failure: JwtFailure)

  /** Jwts.parser().verifyWith(SECRET_KEY).build().parseSignedClaims(raw). */
  type Parser = string -> ParseResult

  /** What reading the authorities claim gives: the authority names; an
      IOException for text that is not a JSON array of authorities; or a
      NullPointerException, when the text is "null" (readValue gives a null
      array, which Arrays.asList rejects) or the array holds a null element
      (getAuthority is called on it). */
  datatype Decoding = Names(names: seq<string>) | Unreadable | NullElement

  /** Jackson's readValue into SimpleGrantedAuthority[] followed by
      getAuthority on each element. */
  type AuthoritiesDecoder = string -> Decoding

  /** An exception that leaves the method instead of being caught. */
  datatype Thrown = UncaughtJwt(failure: JwtFailure) | NullPointer

  /** What a Java method does: return a value or throw. */
  datatype Outcome<+T> = Returned(value: T) | Raised(thrown: Thrown)

  /** The failures isTokenValid's two catch clauses name. */
  predicate CaughtByIsTokenValid(f: JwtFailure) {
    f != OtherJwtFailure
  }

  /** UserServiceImpl.isTokenValid */
  function IsTokenValid(parse: Parser, token: Option<string>): (r: Outcome<bool>)
    ensures !Presented(token) ==> r == Returned(false)
    ensures r == Returned(true) <==> Presented(token) && parse(StripBearer(token.value)).Parsed?
    ensures r.Raised? <==>
      Presented(token) && parse(StripBearer(token.value)) == Rejected(OtherJwtFailure)
    ensures r.Raised? ==> r.thrown == UncaughtJwt(OtherJwtFailure)
  {
    if !Presented(token) then Returned(false)
    else
      match parse(StripBearer(token.value))
      case Parsed(_) => Returned(true)
      case Rejected(f) => if CaughtByIsTokenValid(f) then Returned(false) else Raised(UncaughtJwt(f))
  }

  /** TokenValidationResult: `username` and `roles` stay null unless valid. */
  datatype TokenValidationResult = TokenValidationResult(valid: bool, username: Option<string>, roles: Option<seq<string>>)

  const Invalid: TokenValidationResult := TokenValidationResult(false, None, None)

  /** UserServiceImpl.validateTokenDetails */
  function ValidateTokenDetails(parse: Parser, decode: AuthoritiesDecoder, token: Option<string>)
    : (r: Outcome<TokenValidationResult>)
    ensures !Presented(token) ==> r == Returned(Invalid)
    ensures r.Raised? <==>
      && Presented(token)
      && parse(StripBearer(token.value)).Parsed?
      && (|| parse(StripBearer(token.value)).claims.authorities.None?
          || decode(parse(StripBearer(token.value)).claims.authorities.value).NullElement?)
    ensures r.Raised? ==> r.thrown == NullPointer
    ensures r.Returned? && r.value.valid <==>
      && Presented(token)
      && parse(StripBearer(token.value)).Parsed?
      && parse(StripBearer(token.value)).claims.authorities.Some?
      && decode(parse(StripBearer(token.value)).claims.authorities.value).Names?
    ensures r.Returned? && r.value.valid ==>
      var claims := parse(StripBearer(token.value)).claims;
      r.value.username == claims.subject && r.value.roles == Some(decode(claims.authorities.value).names)
    ensures r.Returned? && !r.value.valid ==> r.value == Invalid
  {
    if !Presented(token) then Returned(Invalid)
    else
      match parse(StripBearer(token.value))
      case Rejected(_) => Returned(Invalid)
      case Parsed(claims) =>
        if claims.authorities.None? then Raised(NullPointer)
        else
          match decode(claims.authorities.value)
          case Unreadable => Returned(Invalid)
          case NullElement => Raised(NullPointer)
          case Names(names) => Returned(TokenValidationResult(true, claims.subject, Some(names)))
  }

  /** Stripping undoes prepending the prefix, once. */
  lemma StripBearerUndoesPrefix(t: string)
    ensures StripBearer(BearerPrefix + t) == t
  {
    assert BearerPrefix <= BearerPrefix + t;
  }

  /** A non-blank token without the prefix is judged the same with or
      without "Bearer " in front of it, by both entry points. */
  lemma PrefixIsTransparent(parse: Parser, decode: AuthoritiesDecoder, t: string)
    requires !IsBlank(t) && !(BearerPrefix <= t)
    ensures IsTokenValid(parse, Some(BearerPrefix + t)) == IsTokenValid(parse, Some(t))
    ensures ValidateTokenDetails(parse, decode, Some(BearerPrefix + t)) == ValidateTokenDetails(parse, decode, Some(t))
  {
    StripBearerUndoesPrefix(t);
    var i :| 0 <= i < |t| && !IsWhitespace(t[i]);
    assert (BearerPrefix + t)[|BearerPrefix| + i] == t[i];
  }

  /** A null or blank token gets the same answer whatever the parser and
      decoder would do: neither is consulted. */
  lemma BlankTokenIgnoresParser(p1: Parser, p2: Parser, d1: AuthoritiesDecoder, d2: AuthoritiesDecoder, token: Option<string>)
    requires !Presented(token)
    ensures IsTokenValid(p1, token) == IsTokenValid(p2, token) == Returned(false)
    ensures ValidateTokenDetails(p1, d1, token) == ValidateTokenDetails(p2, d2, token) == Returned(Invalid)
  {
  }

  /** Fail closed: every parser failure gives valid = false from
      validateTokenDetails, and false from isTokenValid for each kind its
      catch clauses name. */
  lemma EveryRejectionIsInvalid(parse: Parser, decode: AuthoritiesDecoder, token: Option<string>, f: JwtFailure)
    requires Presented(token) && parse(StripBearer(token.value)) == Rejected(f)
    ensures ValidateTokenDetails(parse, decode, token) == Returned(Invalid)
    ensures CaughtByIsTokenValid(f) ==> IsTokenValid(parse, token) == Returned(false)
  {
  }

  /** The two entry points agree: a token validateTokenDetails accepts is one
      isTokenValid accepts, and one isTokenValid answers false for is one
      validateTokenDetails reports invalid. */
  lemma EntryPointsAgree(parse: Parser, decode: AuthoritiesDecoder, token: Option<string>)
    ensures ValidateTokenDetails(parse, decode, token).Returned? && ValidateTokenDetails(parse, decode, token).value.valid
            ==> IsTokenValid(parse, token) == Returned(true)
    ensures IsTokenValid(parse, token) == Returned(false) ==> ValidateTokenDetails(parse, decode, token) == Returned(Invalid)
  {
  }
}
