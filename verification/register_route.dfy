/** `/api/auth/register`: account creation through the `register_user`
    procedure, answered with the new user and a session cookie. */
module RegisterRoute {
  import opened Common
  import opened Rows
  import opened Text

  /** The JSON body; empty strings stand for missing fields. */
  datatype Registration = Registration(email: string, password: string, fullName: string)

  /** The arguments handed to `register_user`. */
  datatype RpcArgs = RpcArgs(userEmail: string, userPassword: string, userFullName: string)

  /** A row `register_user` returns. */
  datatype NewUser = NewUser(userId: Id, email: string, fullName: string, avatarUrl: string,
                             sessionToken: string)

  /** `{ id, email, full_name, avatar_url }` */
  datatype UserJson = UserJson(id: Id, email: string, fullName: string, avatarUrl: string)

  datatype Cookie = Cookie(name: string, value: string, httpOnly: bool, secure: bool,
                           sameSite: string, maxAge: nat, path: string)

  datatype Registered = Registered(user: UserJson, cookie: Cookie)

  /** The answer, and the procedure call made on the way (if any). */
  datatype Attempt = Attempt(reply: Outcome<Registered>, call: Option<RpcArgs>)

  /** Seven days in seconds. */
  const SessionMaxAge: nat := 7 * 24 * 60 * 60

  /** `email.toLowerCase().trim()` */
  function NormalEmail(email: string): (r: string)
    ensures |r| <= |email|
    ensures exists lo, hi :: SpaceOutside(Lower(email), lo, hi) && r == Lower(email)[lo..hi]
    ensures |r| > 0 ==> !IsSpace(r[0]) && !IsSpace(r[|r| - 1])
    ensures forall i :: 0 <= i < |r| ==> !IsUpper(r[i])
  {
    var l := Lower(email);
    var r := Trim(l);
    assert r == l[TrimSpan(l).lo..TrimSpan(l).hi];
    r
  }

  /** Normalising twice changes nothing. */
  lemma NormalEmailIdempotent(email: string)
    ensures NormalEmail(NormalEmail(email)) == NormalEmail(email)
  {
    var n := NormalEmail(email);
    assert Lower(n) == n;
    TrimIdempotent(Lower(email));
  }

  /** Two addresses that differ only in letter case and in spaces around
      them normalise to the same address. */
  lemma {:induction false} SpellingsAgree(w1: string, e: string, w2: string, original: string)
    requires AllSpace(w1) && AllSpace(w2)
    requires Lower(e) == Lower(original)
    ensures NormalEmail(w1 + e + w2) == NormalEmail(original)
  {
    LowerPadded(w1, e, w2);
    TrimPadded(w1, Lower(e), w2);
  }

  function HasEmail(email: string): string -> bool {
    (e: string) => e == email
  }

  /** The handler. `emails` is the `email` column of `users`; `rpc` is the
      procedure's answer (`None` on error); `production` is whether
      `NODE_ENV` is `production`. The existence check is a `.single()`, so
      it sees a user only when exactly one row carries the address. */
  function Register(req: Registration, emails: seq<string>, rpc: Option<seq<NewUser>>,
                    production: bool): (a: Attempt)
    ensures req.email == "" || req.password == "" || req.fullName == "" ==>
              a == Attempt(Rejected(BadRequest), None)
    ensures req.email != "" && req.password != "" && req.fullName != "" && |req.password| < 6 ==>
              a == Attempt(Rejected(BadRequest), None)
    ensures a.call.None? <==> a.reply.Rejected? && a.reply.status != ServerError
    ensures (&& req.email != "" && req.password != "" && req.fullName != "" && |req.password| >= 6
             && |Filter(emails, HasEmail(NormalEmail(req.email)))| != 1) ==> a.call.Some?
    ensures a.reply == Rejected(Conflict) <==>
              && req.email != "" && req.password != "" && req.fullName != "" && |req.password| >= 6
              && |Filter(emails, HasEmail(NormalEmail(req.email)))| == 1
    ensures a.call.Some? ==>
              a.call.value == RpcArgs(NormalEmail(req.email), req.password, Trim(req.fullName))
    ensures a.call.Some? ==> (a.reply.Done? <==> rpc.Some? && |rpc.value| > 0)
    ensures a.reply.Done? ==>
              var u := rpc.value[0];
              && a.reply.value.user == UserJson(u.userId, u.email, u.fullName, u.avatarUrl)
              && a.reply.value.cookie.name == "auth_token"
              && a.reply.value.cookie.value == u.sessionToken
              && a.reply.value.cookie.httpOnly && a.reply.value.cookie.sameSite == "lax"
              && a.reply.value.cookie.secure == production
              && a.reply.value.cookie.maxAge == 604800 && a.reply.value.cookie.path == "/"
  {
    if req.email == "" || req.password == "" || req.fullName == "" then
      Attempt(Rejected(BadRequest), None)
    else if |req.password| < 6 then
      Attempt(Rejected(BadRequest), None)
    else if Single(emails, HasEmail(NormalEmail(req.email))).Some? then
      Attempt(Rejected(Conflict), None)
    else
      var call := RpcArgs(NormalEmail(req.email), req.password, Trim(req.fullName));
      match rpc
      case None => Attempt(Rejected(ServerError), Some(call))
      case Some(rows) =>
        if |rows| == 0 then Attempt(Rejected(ServerError), Some(call))
        else
          var u := rows[0];
          var cookie := Cookie("auth_token", u.sessionToken, true, production, "lax", SessionMaxAge, "/");
          Attempt(Done(Registered(UserJson(u.userId, u.email, u.fullName, u.avatarUrl), cookie)),
                  Some(call))
  }

  /** Once an address is stored in normal form, registering it again in
      another letter case or with spaces around it is refused with 409 and
      never reaches the procedure. */
  lemma SpellingVariantConflicts(w1: string, e: string, w2: string, original: string,
                                 req: Registration, rpc: Option<seq<NewUser>>, production: bool)
    requires AllSpace(w1) && AllSpace(w2) && Lower(e) == Lower(original)
    requires req.email == w1 + e + w2
    requires req.email != "" && req.fullName != "" && |req.password| >= 6
    ensures Register(req, [NormalEmail(original)], rpc, production) == Attempt(Rejected(Conflict), None)
  {
    var stored := NormalEmail(original);
    SpellingsAgree(w1, e, w2, original);
    assert Filter([stored], HasEmail(stored)) == [stored] by {
      FilterSnoc([], stored, HasEmail(stored));
      assert [] + [stored] == [stored];
    }
  }
}
