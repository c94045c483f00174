/**
 * The admin sign-in endpoint (src/pages/api/admin/login.ts) as a decision
 * ladder. The sign-in REST call and the token verification are given by
 * their outcomes; the admin list is the text of `ADMIN_EMAILS`, read once
 * when the module loads. Missing body fields, like empty ones, are "".
 */
module AdminLogin {
  import opened Options
  import opened Strings

  datatype Request = Request(verb: string, email: string, password: string)

  /** How the password sign-in call ended: it threw (network or JSON error), or answered. */
  datatype SignIn =
    | SignInThrew
    | Answered(ok: bool, errorMessage: string, idToken: string)   // errorMessage "" when `data.error?.message` is absent

  /** The verified token's claims: its email ("" when absent) and whether `admin === true`. */
  datatype Decoded = Decoded(email: string, adminClaim: bool)

  datatype Verify = VerifyThrew | Verified(decoded: Decoded)

  datatype Cookie = Cookie(name: string, value: string, httpOnly: bool, secure: bool,
                           path: string, maxAge: int, sameSite: string)

  datatype Body = ErrorBody(error: string) | SuccessBody

  datatype Response = Response(status: int, body: Body, cookie: Option<Cookie>)

  const CookieName: string := "admin_token"
  const EightHours: int := 60 * 60 * 8
  const InvalidCredentials: string := "Invalid credentials"

  /** `(process.env.ADMIN_EMAILS || '').split(',')`: entries are not trimmed. */
  function AdminEmails(adminEmailsVar: Option<string>): (list: seq<string>)
    ensures adminEmailsVar.None? || adminEmailsVar == Some("") ==> list == [""]
    ensures adminEmailsVar.Some? ==> Join(list, ',') == adminEmailsVar.value
  {
    var text := adminEmailsVar.GetOr("");
    JoinSplit(text, ',');
    SplitWithoutSeparator("", ',');
    Split(text, ',')
  }

  /** `isAdmin`: a non-empty email on the list, or the admin claim. */
  predicate IsAdmin(d: Decoded, list: seq<string>) {
    (d.email != "" && d.email in list) || d.adminClaim
  }

  /** With `ADMIN_EMAILS` unset or empty, only the claim makes an admin: the list's one empty entry matches no email. */
  lemma UnsetListOnlyClaims(d: Decoded, adminEmailsVar: Option<string>)
    requires adminEmailsVar.None? || adminEmailsVar == Some("")
    ensures IsAdmin(d, AdminEmails(adminEmailsVar)) <==> d.adminClaim
  {
  }

  /** The list keeps the space after a comma, so "a@x, b@x" admits "a@x" but not "b@x". */
  lemma SpaceAfterCommaNeverMatches()
    ensures AdminEmails(Some("a@x, b@x")) == ["a@x", " b@x"]
    ensures IsAdmin(Decoded("a@x", false), AdminEmails(Some("a@x, b@x")))
    ensures !IsAdmin(Decoded("b@x", false), AdminEmails(Some("a@x, b@x")))
  {
    var text := "a@x, b@x";
    assert text[0] != ',' && text[1] != ',' && text[2] != ',' && text[3] == ',';
    assert IndexOf(text, ',') == 3;
    assert text[..3] == "a@x" && text[4..] == " b@x";
    assert " b@x"[0] != ',' && " b@x"[1] != ',' && " b@x"[2] != ',' && " b@x"[3] != ',';
    SplitWithoutSeparator(" b@x", ',');
    assert Split(text, ',') == [text[..3]] + Split(text[4..], ',');
    assert "b@x" != " b@x";
  }

  /** The session cookie set on success. */
  function SessionCookie(idToken: string, nodeEnv: string): (c: Cookie)
    ensures c.name == CookieName && c.value == idToken && c.httpOnly && c.path == "/"
    ensures c.maxAge == 28800 && c.sameSite == "lax"
    ensures c.secure <==> nodeEnv == "production"
  {
    Cookie(CookieName, idToken, true, nodeEnv == "production", "/", EightHours, "lax")
  }

  /**
   * `handler`. The ladder: 405 for anything but POST, 400 for a missing
   * field, 401 for a refused sign-in, 403 for a non-admin, 200 with the
   * cookie; 500 when a call throws.
   */
  function Handle(req: Request, signIn: SignIn, verify: Verify, adminEmailsVar: Option<string>, nodeEnv: string): (r: Response)
    ensures r.status in {200, 400, 401, 403, 405, 500}
    ensures r.status == 405 <==> req.verb != "POST"
    ensures r.status == 400 <==> req.verb == "POST" && (req.email == "" || req.password == "")
    ensures r.cookie.Some? <==> r.status == 200
    ensures r.status == 200 <==>
              && req.verb == "POST" && req.email != "" && req.password != ""
              && signIn.Answered? && signIn.ok && verify.Verified?
              && IsAdmin(verify.decoded, AdminEmails(adminEmailsVar))
    ensures r.status == 200 ==> r.body == SuccessBody && r.cookie == Some(SessionCookie(signIn.idToken, nodeEnv))
    ensures r.status == 401 ==>
              signIn.Answered? && !signIn.ok &&
              r.body == ErrorBody(if signIn.errorMessage != "" then signIn.errorMessage else InvalidCredentials)
    ensures req.verb == "POST" && req.email != "" && req.password != "" && signIn.Answered? && !signIn.ok ==> r.status == 401
    ensures r.status == 403 <==>
              && req.verb == "POST" && req.email != "" && req.password != ""
              && signIn.Answered? && signIn.ok && verify.Verified?
              && !IsAdmin(verify.decoded, AdminEmails(adminEmailsVar))
    ensures r.status == 500 <==>
              && req.verb == "POST" && req.email != "" && req.password != ""
              && (signIn.SignInThrew? || (signIn.ok && verify.VerifyThrew?))
  {
    if req.verb != "POST" then Response(405, ErrorBody("Method not allowed"), None)
    else if req.email == "" || req.password == "" then Response(400, ErrorBody("Email and password are required"), None)
    else
      match signIn
      case SignInThrew => Response(500, ErrorBody("Internal server error"), None)
      case Answered(ok, message, idToken) =>
        if !ok then Response(401, ErrorBody(if message != "" then message else InvalidCredentials), None)
        else
          match verify
          case VerifyThrew => Response(500, ErrorBody("Internal server error"), None)
          case Verified(d) =>
            if !IsAdmin(d, AdminEmails(adminEmailsVar)) then Response(403, ErrorBody("Not an admin user"), None)
            else Response(200, SuccessBody, Some(SessionCookie(idToken, nodeEnv)))
  }

  /** The method is checked first: whatever else holds, a non-POST request gets 405. */
  lemma MethodCheckedFirst(req: Request, s1: SignIn, s2: SignIn, v1: Verify, v2: Verify, a: Option<string>, n: string)
    requires req.verb != "POST"
    ensures Handle(req, s1, v1, a, n) == Handle(req, s2, v2, a, n)
  {
  }

  /** A verified non-admin gets 403 and no cookie. */
  lemma NonAdminForbidden(req: Request, token: string, d: Decoded, a: Option<string>, n: string)
    requires req.verb == "POST" && req.email != "" && req.password != ""
    requires !IsAdmin(d, AdminEmails(a))
    ensures Handle(req, Answered(true, "", token), Verified(d), a, n) == Response(403, ErrorBody("Not an admin user"), None)
  {
  }

  /** Either call throwing gives 500 once the request itself is well formed. */
  lemma ThrowGives500(req: Request, signIn: SignIn, verify: Verify, a: Option<string>, n: string)
    requires req.verb == "POST" && req.email != "" && req.password != ""
    requires signIn.SignInThrew? || (signIn.ok && verify.VerifyThrew?)
    ensures Handle(req, signIn, verify, a, n).status == 500
  {
  }
}
