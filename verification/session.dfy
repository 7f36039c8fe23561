/** The caller's identity as the `validate_session` procedure reports it,
    and the display name every write handler derives from it
    (`full_name`, else the e-mail's local part, else a fixed placeholder). */
module Session {
  import opened Common
  import opened Text

  /** A row returned by `validate_session`; empty strings stand for null. */
  datatype User = User(userId: Id, email: string, fullName: string, avatarUrl: string)

  /** The session oracle: `validate_session` runs inside the store, so it is
      abstracted as a map from live tokens to their user. */
  type Sessions = map<string, User>

  /** Resolve the `auth_token` cookie; an empty cookie is never sent to the
      store. Both failures answer 401. */
  function Authenticate(token: string, sessions: Sessions): (u: Option<User>)
    ensures u.Some? ==> token != "" && token in sessions && u.value == sessions[token]
    ensures token != "" && token in sessions ==> u.Some?
  {
    if token == "" then None
    else if token in sessions then Some(sessions[token])
    else None
  }

  const Anonymous: string := "Anonim Kullanıcı"

  /** `user.full_name || user.email?.split('@')[0] || 'Anonim Kullanıcı'` */
  function DisplayName(u: User): (name: string)
    ensures name != ""
    ensures u.fullName != "" ==> name == u.fullName
    ensures u.fullName == "" && name != Anonymous ==>
              StartsWith(u.email, name) && '@' !in name
              && (|name| == |u.email| || u.email[|name|] == '@')
  {
    if u.fullName != "" then u.fullName
    else
      var local := Before(u.email, '@');
      if local != "" then local else Anonymous
  }

  /** `user.avatar_url || null` */
  function Avatar(u: User): (a: Option<string>)
    ensures a.Some? <==> u.avatarUrl != ""
    ensures a.Some? ==> a.value == u.avatarUrl
  {
    if u.avatarUrl != "" then Some(u.avatarUrl) else None
  }
}
