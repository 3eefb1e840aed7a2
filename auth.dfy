/** The auth guard `verifyToken`: takes the token from the `Authorization` header, decodes
    it as a JWT (RFC 7519) without checking its signature, and either attaches the claims
    to the request and passes control on, or answers 401. */
module Auth {
  import opened Js
  import opened StringSplit
  import opened Express

  const NoTokenError := "Unauthorized: No token provided"
  const InvalidTokenError := "Unauthorized: Invalid token"
  const InvalidStructure := "Invalid token structure"
  const UnknownError := "Unknown error"

  /** What a call of `jwt.decode(token)` does: it returns a value (`null`, the payload
      object, or the payload as a string when it is not JSON) or it throws. */
  datatype DecodeResult = Returned(value: Value) | Raised(thrown: Thrown)

  /** `header?.split(' ')[1]`: the second space-separated field, whatever the first one
      (the scheme word) is; `None` stands for `undefined`. */
  function BearerToken(authorization: Option<string>): (token: Option<string>)
    ensures token.Some? ==> authorization.Some? && ' ' in authorization.value
    ensures token.Some? ==> ' ' !in token.value
  {
    match authorization
    case None => None
    case Some(h) =>
      var parts := Split(h, ' ');
      if |parts| >= 2 then Some(parts[1]) else None
  }

  /** `!token`: both `undefined` and the empty string are falsy. */
  predicate TokenMissing(token: Option<string>)
  {
    token.None? || token.value == ""
  }

  /** The issuer a token must name: `${process.env.SUPABASE_URL}/auth/v1`, where an unset
      variable renders as "undefined". */
  function ExpectedIssuer(supabaseUrl: Option<string>): string
  {
    (if supabaseUrl.Some? then supabaseUrl.value else "undefined") + "/auth/v1"
  }

  /** The structural check: the claims exist, `sub` and `role` are truthy, and `iss` is
      exactly the expected issuer (a strict `!==`, so a non-string never matches). */
  predicate ClaimsAccepted(decoded: Value, issuer: string)
  {
    && Truthy(decoded)
    && Truthy(Member(decoded, "sub"))
    && Truthy(Member(decoded, "role"))
    && Member(decoded, "iss") == Str(issuer)
  }

  /** The request is let through: a token is present, decoding returns, and the claims pass. */
  predicate Admits(authorization: Option<string>, decode: string -> DecodeResult, supabaseUrl: Option<string>)
  {
    var token := BearerToken(authorization);
    && !TokenMissing(token)
    && decode(token.value).Returned?
    && ClaimsAccepted(decode(token.value).value, ExpectedIssuer(supabaseUrl))
  }

  function NoTokenBody(): Value
  {
    Obj(map["error" := Str(NoTokenError)])
  }

  function InvalidTokenBody(details: string): Value
  {
    Obj(map["error" := Str(InvalidTokenError), "details" := Str(details)])
  }

  /** `verifyToken(req, res, next)`, with the decoder and the `SUPABASE_URL` environment
      variable passed in. */
  method VerifyToken(req: Request, res: Response, next: Next,
                     decode: string -> DecodeResult, supabaseUrl: Option<string>)
    modifies req, res, next
    // no usable token: the fixed "no token" body
    ensures TokenMissing(BearerToken(req.authorization)) ==>
      && res.sent == old(res.sent) + [Reply(401, NoTokenBody())]
      && req.user == old(req.user) && next.calls == old(next.calls)
    // the decoder threw: "invalid token", with the thrown error's message as details
    ensures var token := BearerToken(req.authorization);
      !TokenMissing(token) && decode(token.value).Raised? ==>
      && res.sent == old(res.sent) + [Reply(401, InvalidTokenBody(MessageOr(decode(token.value).thrown, UnknownError)))]
      && req.user == old(req.user) && next.calls == old(next.calls)
    // decoded claims missing, without `sub` or `role`, or from another issuer
    ensures var token := BearerToken(req.authorization);
      && !TokenMissing(token) && decode(token.value).Returned?
      && !ClaimsAccepted(decode(token.value).value, ExpectedIssuer(supabaseUrl)) ==>
      && res.sent == old(res.sent) + [Reply(401, InvalidTokenBody(InvalidStructure))]
      && req.user == old(req.user) && next.calls == old(next.calls)
    // accepted: the claims become `req.user`, `next` runs once, nothing is sent
    ensures Admits(req.authorization, decode, supabaseUrl) ==>
      && req.user == decode(BearerToken(req.authorization).value).value
      && next.calls == old(next.calls) + 1
      && res.sent == old(res.sent) && res.statusCode == old(res.statusCode)
    // every call ends in exactly one of "next called" and "one 401 written"
    ensures Admits(req.authorization, decode, supabaseUrl) <==> next.calls == old(next.calls) + 1
    ensures !Admits(req.authorization, decode, supabaseUrl) <==>
      && next.calls == old(next.calls) && req.user == old(req.user)
      && res.statusCode == 401 && |res.sent| == |old(res.sent)| + 1
      && res.sent[..|old(res.sent)|] == old(res.sent) && res.sent[|old(res.sent)|].status == 401
  {
    var token := BearerToken(req.authorization);
    if TokenMissing(token) {
      res.Status(401);
      res.Json(NoTokenBody());
      return;
    }
    // try
    var caught: Option<Thrown> := None;
    var decoded := decode(token.value);
    if decoded.Raised? {
      caught := Some(decoded.thrown);
    } else if !ClaimsAccepted(decoded.value, ExpectedIssuer(supabaseUrl)) {
      caught := Some(Raise(ErrorObject("Error", InvalidStructure)));
    } else {
      req.user := decoded.value;
      next.Call();
    }
    // catch
    if caught.Some? {
      res.Status(401);
      res.Json(InvalidTokenBody(MessageOr(caught.value, UnknownError)));
    }
  }

  /** The token is the word right after the first space, up to the next space. */
  lemma TokenAfterFirstSpace(scheme: string, rest: string)
    requires ' ' !in scheme
    ensures BearerToken(Some(scheme + " " + rest)) == Some(TakeUntil(rest, ' '))
  {
    SplitAtFirst(scheme, rest, ' ');
    SplitFirstPart(rest, ' ');
  }

  /** A header without a space has no token. */
  lemma NoTokenWithoutSpace(header: string)
    requires ' ' !in header
    ensures BearerToken(Some(header)) == None
  {
    SplitNoSeparator(header, ' ');
  }

  /** For a header that contains a space, the guard finds no token exactly when the first
      space is followed by another space or by nothing (a header without a space is
      `NoTokenWithoutSpace`). */
  lemma TokenMissingIff(scheme: string, rest: string)
    requires ' ' !in scheme
    ensures TokenMissing(BearerToken(Some(scheme + " " + rest))) <==> rest == "" || rest[0] == ' '
  {
    TokenAfterFirstSpace(scheme, rest);
  }

  /** The scheme word plays no part: any two space-free schemes give the same token. */
  lemma SchemeIgnored(scheme: string, other: string, rest: string)
    requires ' ' !in scheme && ' ' !in other
    ensures BearerToken(Some(scheme + " " + rest)) == BearerToken(Some(other + " " + rest))
  {
    TokenAfterFirstSpace(scheme, rest);
    TokenAfterFirstSpace(other, rest);
  }

  /** `Bearer`, `Bearer ` and `Bearer  x` (two spaces) carry no token. */
  lemma MissingTokenExamples(scheme: string)
    // the string is a parameter fixed by `requires`, not a literal, so that the solver
    // does not unroll `Split` on a literal argument
    requires scheme == "Bearer"
    ensures TokenMissing(BearerToken(Some(scheme)))
    ensures TokenMissing(BearerToken(Some(scheme + " ")))
    ensures TokenMissing(BearerToken(Some(scheme + "  x")))
  {
    NoTokenWithoutSpace(scheme);
    assert scheme + " " == scheme + " " + "";
    TokenMissingIff(scheme, "");
    assert scheme + "  x" == scheme + " " + " x";
    TokenMissingIff(scheme, " x");
  }

  /** `Basic abc` yields `abc`: the scheme word is not checked. */
  lemma BasicSchemeExample(scheme: string, token: string)
    // the string is a parameter fixed by `requires`, not a literal, so that the solver
    // does not unroll `Split` on a literal argument
    requires scheme == "Basic" && token == "abc"
    ensures BearerToken(Some(scheme + " " + token)) == Some(token)
  {
    TokenAfterFirstSpace(scheme, token);
    TakeUntilFirst(token, "", ' ');
  }

  /** `Bearer a b` yields `a`: the fields after the second are ignored. */
  lemma ExtraFieldExample(scheme: string, token: string, extra: string)
    // the string is a parameter fixed by `requires`, not a literal, so that the solver
    // does not unroll `Split` on a literal argument
    requires scheme == "Bearer" && token == "a" && extra == "b"
    ensures BearerToken(Some(scheme + " " + token + " " + extra)) == Some(token)
  {
    assert scheme + " " + token + " " + extra == scheme + " " + (token + " " + extra);
    TokenAfterFirstSpace(scheme, token + " " + extra);
    TakeUntilFirst(token, extra, ' ');
  }

  /** Claims with a non-empty string subject and role, issued by the expected issuer,
      pass the check, whatever else the payload holds. */
  lemma WellFormedClaimsAccepted(claims: map<string, Value>, sub: string, role: string, supabaseUrl: Option<string>)
    requires sub != "" && role != ""
    ensures ClaimsAccepted(Obj(claims["sub" := Str(sub)]["role" := Str(role)]["iss" := Str(ExpectedIssuer(supabaseUrl))]),
                           ExpectedIssuer(supabaseUrl))
  {
  }

  /** Only an object can pass the check: `null`, strings, numbers, booleans and arrays
      never do, and a passing object owns `sub`, `role` and the exact `iss`. */
  lemma OnlyObjectsAccepted(decoded: Value, issuer: string)
    ensures ClaimsAccepted(decoded, issuer) ==>
      && decoded.Obj? && "sub" in decoded.fields && "role" in decoded.fields
      && "iss" in decoded.fields && decoded.fields["iss"] == Str(issuer)
  {
  }

  /** `TokenMissing` is JavaScript falsiness of the token, read as `undefined` or a string. */
  lemma TokenMissingIsFalsy(token: Option<string>)
    ensures TokenMissing(token) <==> !Truthy(if token.Some? then Str(token.value) else Undefined)
  {
  }
}
