/**
 * The server-side guard of the admin pages (src/lib/auth.server.ts). The
 * session cookie, the token verification and the user-document read are
 * given by their outcomes; an absent cookie is "".
 */
module AuthServer {

  /** The read of `users/<uid>`: it threw, found nothing, or found a document with a `role` text ("" when absent or not a text). */
  datatype UserDoc = ReadThrew | NoDocument | Document(role: string)

  /** `checkIsAdmin`: the document exists and its role is "admin"; a failed read counts as not admin. */
  function CheckIsAdmin(doc: UserDoc): (admin: bool)
    ensures admin <==> doc == Document("admin")
  {
    match doc
    case ReadThrew => false
    case NoDocument => false
    case Document(role) => role == "admin"
  }

  datatype Verification = VerifyThrew | Verified(uid: string)

  /** What `getServerSideProps` returns. */
  datatype Outcome = Redirect(destination: string, permanent: bool) | Props(uid: string)

  const LoginPrefix: string := "/admin/login?redirect="

  /** The login page, told where to come back to; the URL is appended as it is, without encoding. */
  function LoginRedirect(resolvedUrl: string): (o: Outcome)
    ensures o.Redirect? && !o.permanent
    ensures |o.destination| == |LoginPrefix| + |resolvedUrl|
    ensures o.destination[..|LoginPrefix|] == LoginPrefix && o.destination[|LoginPrefix|..] == resolvedUrl
  {
    Redirect(LoginPrefix + resolvedUrl, false)
  }

  /**
   * `protectAdminRoute`: no token or a failed verification sends the visitor
   * to the login page; a verified non-admin goes home; an admin gets the
   * page with their uid.
   */
  function ProtectAdminRoute(token: string, verify: Verification, doc: UserDoc, resolvedUrl: string): (o: Outcome)
    ensures o.Redirect? ==> !o.permanent
    ensures token == "" || verify.VerifyThrew? ==> o == LoginRedirect(resolvedUrl)
    ensures o.Props? <==> token != "" && verify.Verified? && CheckIsAdmin(doc)
    ensures o.Props? ==> o.uid == verify.uid
    ensures o == Redirect("/", false) <==> token != "" && verify.Verified? && !CheckIsAdmin(doc)
  {
    if token == "" then LoginRedirect(resolvedUrl)
    else
      match verify
      case VerifyThrew => LoginRedirect(resolvedUrl)
      case Verified(uid) =>
        if !CheckIsAdmin(doc) then Redirect("/", false) else Props(uid)
  }

  /** The login redirect gives back the page asked for: different pages give different redirects. */
  lemma LoginRedirectInjective(u1: string, u2: string)
    requires LoginRedirect(u1) == LoginRedirect(u2)
    ensures u1 == u2
  {
    assert LoginRedirect(u1).destination[|LoginPrefix|..] == u1;
  }

  /** A failed document read is indistinguishable from a non-admin: both go home. */
  lemma ReadFailureSendsHome(token: string, uid: string, resolvedUrl: string)
    requires token != ""
    ensures ProtectAdminRoute(token, Verified(uid), ReadThrew, resolvedUrl) ==
              ProtectAdminRoute(token, Verified(uid), Document("customer"), resolvedUrl)
  {
  }
}
