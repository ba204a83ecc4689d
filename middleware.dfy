/**
 * The request gate that runs before every route: API routes need the PIN
 * session cookie or the API key, `/api/public-upload` is open, and every
 * other page needs the session cookie, which a correct PIN posted to
 * `/verify-pin` sets.
 */
module Middleware {
  import opened Wrappers
  import opened Text

  /** The parts of a request the gate reads; an absent header, cookie or form field is `None`. */
  datatype Request = Request(pathname: string, verb: string,   // request.method
                             cookie: Option<string>,         // value of the `authenticated` cookie
                             xApiKey: Option<string>,        // `x-api-key` header
                             authorization: Option<string>,  // `authorization` header
                             pin: Option<string>)            // `pin` field of the posted form

  /** The `API_KEY`, `PIN` and `NODE_ENV` settings. */
  datatype Config = Config(apiKey: Option<string>, pin: Option<string>, nodeEnv: Option<string>)

  datatype Cookie = Cookie(name: string, value: string, httpOnly: bool, secure: bool,
                           sameSite: string, maxAge: nat, path: string)

  /** What the gate answers; the login page is HTML with status 200. */
  datatype Outcome =
    | PassThrough
    | JsonError(status: nat, error: string)
    | TextError(status: nat, body: string)
    | Redirect(status: nat, location: string, setCookie: Cookie)
    | LoginPage(banner: Option<string>)

  const PublicUpload := "/api/public-upload"
  const VerifyPin := "/verify-pin"
  const NoApiKeyConfigured := "API key not configured on server"
  const BadApiKey := "Invalid or missing API key. Use header: x-api-key or Authorization: Bearer <key>"
  const NoPinConfigured := "Error: PIN not configured"
  const WrongPin := "Incorrect PIN. Please try again."
  const SeeOther: nat := 303

  predicate IsApiPath(pathname: string) { "/api/" <= pathname }

  predicate HasSession(r: Request) { r.cookie == Some("true") }

  /**
   * `x-api-key || authorization?.replace('Bearer ', '')`: the first
   * occurrence of `Bearer ` is removed wherever it stands.
   */
  function ProvidedKey(r: Request): (k: Option<string>)
    ensures Truthy(r.xApiKey) ==> k == r.xApiKey
    ensures !Truthy(r.xApiKey) && r.authorization.None? ==> k.None?
    ensures !Truthy(r.xApiKey) && r.authorization.Some? ==> k == Some(ReplaceFirst(r.authorization.value, "Bearer ", ""))
  {
    if Truthy(r.xApiKey) then r.xApiKey
    else
      match r.authorization
      case None => None
      case Some(a) => Some(ReplaceFirst(a, "Bearer ", ""))
  }

  /** The session cookie set after a correct PIN. */
  function SessionCookie(c: Config): Cookie {
    Cookie("authenticated", "true", true, c.nodeEnv == Some("production"), "strict", 86400, "/")
  }

  /** The gate, branch by branch in the order the code tests them. */
  function Gate(r: Request, c: Config): Outcome {
    if IsApiPath(r.pathname) then
      if r.pathname == PublicUpload then PassThrough
      else if HasSession(r) then PassThrough
      else if !Truthy(c.apiKey) then JsonError(500, NoApiKeyConfigured)
      else if !Truthy(ProvidedKey(r)) || ProvidedKey(r) != c.apiKey then JsonError(401, BadApiKey)
      else PassThrough
    else if !Truthy(c.pin) then TextError(500, NoPinConfigured)
    else if r.verb == "POST" && r.pathname == VerifyPin then
      if r.pin == c.pin then Redirect(SeeOther, "/", SessionCookie(c))
      else LoginPage(Some(WrongPin))
    else if !HasSession(r) then LoginPage(None)
    else PassThrough
  }

  /** The public upload route always passes, whatever the cookie, headers or settings. */
  lemma PublicUploadAlwaysPasses(r: Request, c: Config)
    requires r.pathname == PublicUpload
    ensures Gate(r, c) == PassThrough
  {
    assert "/api/" <= PublicUpload;
  }

  /** On an API route the cookie is checked before the settings: a session passes even without `API_KEY`. */
  lemma ApiSessionBeatsMissingKey(r: Request, c: Config)
    requires IsApiPath(r.pathname) && HasSession(r)
    ensures Gate(r, c) == PassThrough
  {
  }

  /**
   * An API route without a session: 500 when `API_KEY` is unset, otherwise
   * it passes exactly when the provided key is non-empty and equal to
   * `API_KEY`, and gets 401 in every other case.
   */
  lemma ApiKeyDecision(r: Request, c: Config)
    requires IsApiPath(r.pathname) && r.pathname != PublicUpload && !HasSession(r)
    ensures !Truthy(c.apiKey) ==> Gate(r, c) == JsonError(500, NoApiKeyConfigured)
    ensures Truthy(c.apiKey) ==>
      (Gate(r, c) == PassThrough <==> Truthy(ProvidedKey(r)) && ProvidedKey(r) == c.apiKey)
    ensures Truthy(c.apiKey) && Gate(r, c) != PassThrough ==> Gate(r, c) == JsonError(401, BadApiKey)
  {
  }

  /** `Bearer ` stripped from the front of the header gives the key; `Bearer ` alone gives an empty key, so 401. */
  lemma BearerKey(r: Request, c: Config, key: string)
    requires IsApiPath(r.pathname) && r.pathname != PublicUpload && !HasSession(r)
    requires !Truthy(r.xApiKey) && r.authorization == Some("Bearer " + key)
    ensures ProvidedKey(r) == Some(key)
    ensures key == "" && Truthy(c.apiKey) ==> Gate(r, c) == JsonError(401, BadApiKey)
  {
    var a := "Bearer " + key;
    assert "Bearer " <= a;
    assert IndexOf(a, "Bearer ") == Some(0);
    assert a[..0] + "" + a[7..] == key;
  }

  /** The strip is not anchored: `Bearer ` is removed from the middle of the header too. */
  lemma BearerStripUnanchored(r: Request, lead: string, key: string)
    requires !Truthy(r.xApiKey) && r.authorization == Some(lead + "Bearer " + key)
    requires forall j: nat :: j < |lead| ==> !OccursAt(lead + "Bearer " + key, "Bearer ", j)
    ensures ProvidedKey(r) == Some(lead + key)
  {
    var a := lead + "Bearer " + key;
    assert a[|lead|..|lead| + 7] == "Bearer ";
    IndexOfAt(a, "Bearer ", |lead|);
    assert a[..|lead|] + "" + a[|lead| + 7..] == lead + key;
  }

  /** A page request with `PIN` unset gets the text 500 before any PIN or cookie check. */
  lemma MissingPinIsServerError(r: Request, c: Config)
    requires !IsApiPath(r.pathname) && !Truthy(c.pin)
    ensures Gate(r, c) == TextError(500, NoPinConfigured)
  {
  }

  /**
   * POSTing the exact PIN to `/verify-pin` redirects to `/` with 303 and sets
   * the session cookie: http-only, strict same-site, one day, path `/`,
   * secure only in production.
   */
  lemma CorrectPinSetsSession(r: Request, c: Config)
    requires r.verb == "POST" && r.pathname == VerifyPin && Truthy(c.pin) && r.pin == c.pin
    ensures var o := Gate(r, c);
      && o.Redirect? && o.status == 303 && o.location == "/"
      && o.setCookie.name == "authenticated" && o.setCookie.value == "true"
      && o.setCookie.httpOnly && o.setCookie.sameSite == "strict" && o.setCookie.maxAge == 86400
      && o.setCookie.path == "/" && (o.setCookie.secure <==> c.nodeEnv == Some("production"))
  {
    assert !IsApiPath(VerifyPin) by { assert VerifyPin[1] != "/api/"[1]; }
  }

  /** A wrong or missing PIN gets the login page with the error banner and no cookie, even with a valid session. */
  lemma WrongPinShowsBanner(r: Request, c: Config)
    requires r.verb == "POST" && r.pathname == VerifyPin && Truthy(c.pin) && r.pin != c.pin
    ensures Gate(r, c) == LoginPage(Some(WrongPin))
  {
    assert !IsApiPath(VerifyPin) by { assert VerifyPin[1] != "/api/"[1]; }
  }

  /** Any other page passes exactly with the session cookie, and otherwise gets the plain login page. */
  lemma PageNeedsSession(r: Request, c: Config)
    requires !IsApiPath(r.pathname) && Truthy(c.pin) && !(r.verb == "POST" && r.pathname == VerifyPin)
    ensures HasSession(r) ==> Gate(r, c) == PassThrough
    ensures !HasSession(r) ==> Gate(r, c) == LoginPage(None)
  {
  }

  /** The gate lets a request through exactly in these four cases. */
  lemma PassesExactly(r: Request, c: Config)
    ensures Gate(r, c) == PassThrough <==>
      || r.pathname == PublicUpload
      || (IsApiPath(r.pathname) && HasSession(r))
      || (IsApiPath(r.pathname) && Truthy(c.apiKey) && ProvidedKey(r) == c.apiKey)
      || (!IsApiPath(r.pathname) && Truthy(c.pin) && !(r.verb == "POST" && r.pathname == VerifyPin) && HasSession(r))
  {
    assert "/api/" <= PublicUpload;
  }

  /** Only a correct PIN sets a cookie: every other outcome sets none. */
  lemma OnlyCorrectPinSetsCookie(r: Request, c: Config)
    ensures Gate(r, c).Redirect? <==>
      !IsApiPath(r.pathname) && Truthy(c.pin) && r.verb == "POST" && r.pathname == VerifyPin && r.pin == c.pin
  {
  }
}
