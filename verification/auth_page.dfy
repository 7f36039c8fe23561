/** The forum's sign-in / sign-up page: one form that submits either to
    sign-in or, after two client-side checks, to sign-up, and turns the
    outcome into a toast and a redirect. */
module AuthPage {
  import opened Common
  import opened Text

  datatype Form = Form(email: string, password: string, fullName: string, confirmPassword: string)

  const EmptyForm: Form := Form("", "", "", "")

  datatype Page = Page(isLogin: bool, loading: bool, showPassword: bool, form: Form)

  /** The page as first rendered: the sign-in mode with an empty form. */
  const Initial: Page := Page(true, false, false, EmptyForm)

  /** The authentication call a submission makes. */
  datatype Call = SignIn(email: string, password: string)
                | SignUp(email: string, password: string, fullName: string)

  /** The call's outcome: success, an error object (its message, "" when
      missing), or an exception. */
  datatype CallResult = Succeeded | Failed(message: string) | Threw

  datatype Toast = Toast(title: string, description: string, destructive: bool)

  datatype Redirect = Stay | GoNow(path: string) | GoAfter(path: string, delayMs: nat)

  datatype Submitted = Submitted(page: Page, call: Option<Call>, toast: Toast, redirect: Redirect)

  const Mismatch := "Şifreler eşleşmiyor"
  const TooShort := "Şifre en az 6 karakter olmalıdır"
  const SignInFallback := "Email veya şifre hatalı"
  const SignUpFallback := "Kayıt işlemi başarısız"
  const AlreadyRegistered := "Bu email adresi zaten kayıtlı. Giriş yapmayı deneyin."
  const InvalidEmail := "Geçerli bir email adresi girin."
  const WeakPassword := "Şifre en az 6 karakter olmalıdır."
  const RateLimited := "Çok fazla deneme yaptınız. Lütfen biraz bekleyin."
  const DatabaseFailed := "Veritabanı hatası. Lütfen tekrar deneyin veya Supabase ayarlarını kontrol edin."
  const Unexpected := "Bir hata oluştu, lütfen tekrar deneyin"

  /** `error.message || "Email veya şifre hatalı"` */
  function SignInErrorText(message: string): (r: string)
    ensures r != ""
    ensures message != "" ==> r == message
  {
    if message != "" then message else SignInFallback
  }

  /** The sign-up failure as the page classifies it. */
  datatype SignUpFailure =
    | AlreadyUsed | BadEmail | ShortPassword | TooManyTries | StoreTrouble
    | Echo(message: string) | Generic

  /** The first keyword found in the message decides, in this order;
      otherwise the message itself is shown, or a generic text when there
      is none. */
  function ClassifySignUp(message: string): (e: SignUpFailure)
    ensures e == AlreadyUsed <==> Includes(message, "User already registered")
    ensures e == BadEmail <==>
              !Includes(message, "User already registered") && Includes(message, "Invalid email")
    ensures e == ShortPassword <==>
              && !Includes(message, "User already registered") && !Includes(message, "Invalid email")
              && Includes(message, "Password should be at least")
    ensures e == TooManyTries <==>
              && !Includes(message, "User already registered") && !Includes(message, "Invalid email")
              && !Includes(message, "Password should be at least")
              && (Includes(message, "rate limit") || Includes(message, "too many"))
    ensures e == StoreTrouble <==>
              && !Includes(message, "User already registered") && !Includes(message, "Invalid email")
              && !Includes(message, "Password should be at least") && !Includes(message, "rate limit")
              && !Includes(message, "too many") && Includes(message, "Database error")
    ensures e.Echo? <==>
              && message != ""
              && !Includes(message, "User already registered") && !Includes(message, "Invalid email")
              && !Includes(message, "Password should be at least") && !Includes(message, "rate limit")
              && !Includes(message, "too many") && !Includes(message, "Database error")
    ensures e.Echo? ==> e.message == message
    ensures e == Generic <==> message == ""
  {
    if Includes(message, "User already registered") then AlreadyUsed
    else if Includes(message, "Invalid email") then BadEmail
    else if Includes(message, "Password should be at least") then ShortPassword
    else if Includes(message, "rate limit") || Includes(message, "too many") then TooManyTries
    else if Includes(message, "Database error") then StoreTrouble
    else if message != "" then Echo(message)
    else Generic
  }

  /** The toast text of each failure. */
  function FailureText(e: SignUpFailure): string {
    match e
    case AlreadyUsed => AlreadyRegistered
    case BadEmail => InvalidEmail
    case ShortPassword => WeakPassword
    case TooManyTries => RateLimited
    case StoreTrouble => DatabaseFailed
    case Echo(m) => "Hata: " + m
    case Generic => SignUpFallback
  }

  function SignUpErrorText(message: string): string {
    FailureText(ClassifySignUp(message))
  }

  /** `sub` is found wherever it sits in the message. */
  lemma IncludesInfix(pre: string, sub: string, post: string)
    ensures Includes(pre + sub + post, sub)
  {
    var s := pre + sub + post;
    assert s[|pre|..|pre| + |sub|] == sub;
    assert OccursAt(s, sub, |pre|);
    IncludesIffOccurs(s, sub);
  }

  /** A rate-limit notice is recognised anywhere in the message, as long
      as no keyword of higher priority occurs. */
  lemma RateLimitAnywhere(pre: string, post: string)
    requires !Includes(pre + "rate limit" + post, "User already registered")
    requires !Includes(pre + "rate limit" + post, "Invalid email")
    requires !Includes(pre + "rate limit" + post, "Password should be at least")
    ensures ClassifySignUp(pre + "rate limit" + post) == TooManyTries
  {
    IncludesInfix(pre, "rate limit", post);
  }

  /** The submit handler. `result` is what the call returns; it is read
      only when a call is made. `loading` is cleared on every path. */
  function Submit(p: Page, result: CallResult): (s: Submitted)
    ensures !s.page.loading
    ensures s.page.isLogin == p.isLogin && s.page.showPassword == p.showPassword
    ensures p.isLogin ==> s.call == Some(SignIn(p.form.email, p.form.password))
    ensures !p.isLogin ==>
              (s.call.Some? <==> p.form.password == p.form.confirmPassword && |p.form.password| >= 6)
    ensures !p.isLogin && s.call.Some? ==>
              s.call.value == SignUp(p.form.email, p.form.password, p.form.fullName)
    ensures !p.isLogin && p.form.password != p.form.confirmPassword ==>
              s.toast == Toast("Hata", Mismatch, true)
    ensures !p.isLogin && p.form.password == p.form.confirmPassword && |p.form.password| < 6 ==>
              s.toast == Toast("Hata", TooShort, true)
    ensures s.call.Some? && result.Failed? ==>
              s.toast.description
              == if p.isLogin then SignInErrorText(result.message) else SignUpErrorText(result.message)
    ensures s.call.Some? && result.Threw? ==> s.toast == Toast("Hata", Unexpected, true)
    ensures s.toast.destructive <==> !(s.call.Some? && result.Succeeded?)
    ensures s.redirect != Stay <==> s.call.Some? && result.Succeeded?
    ensures s.redirect.GoAfter? <==> !p.isLogin && s.call.Some? && result.Succeeded?
    ensures s.page.form == if !p.isLogin && s.call.Some? && result.Succeeded? then EmptyForm else p.form
  {
    var done := p.(loading := false);
    if p.isLogin then
      var call := Some(SignIn(p.form.email, p.form.password));
      match result
      case Succeeded =>
        Submitted(done, call, Toast("Hoş Geldiniz!", "Başarıyla giriş yaptınız.", false), GoNow("/forum"))
      case Failed(m) =>
        Submitted(done, call, Toast("Giriş Hatası", SignInErrorText(m), true), Stay)
      case Threw =>
        Submitted(done, call, Toast("Hata", Unexpected, true), Stay)
    else if p.form.password != p.form.confirmPassword then
      Submitted(done, None, Toast("Hata", Mismatch, true), Stay)
    else if |p.form.password| < 6 then
      Submitted(done, None, Toast("Hata", TooShort, true), Stay)
    else
      var call := Some(SignUp(p.form.email, p.form.password, p.form.fullName));
      match result
      case Succeeded =>
        Submitted(done.(form := EmptyForm), call,
                  Toast("Kayıt Başarılı!", "Hoş geldiniz! Forum'a yönlendiriliyorsunuz...", false),
                  GoAfter("/forum", 1500))
      case Failed(m) =>
        Submitted(done, call, Toast("Kayıt Hatası", SignUpErrorText(m), true), Stay)
      case Threw =>
        Submitted(done, call, Toast("Hata", Unexpected, true), Stay)
  }

  /** The mode link: flips between sign-in and sign-up and clears the form. */
  function ToggleMode(p: Page): (q: Page)
    ensures q.isLogin != p.isLogin
    ensures q.form == EmptyForm
    ensures q.loading == p.loading && q.showPassword == p.showPassword
  {
    p.(isLogin := !p.isLogin, form := EmptyForm)
  }

  /** Switching mode twice returns to the same mode with a cleared form. */
  lemma ToggleTwice(p: Page)
    ensures ToggleMode(ToggleMode(p)) == p.(form := EmptyForm)
  {
  }

  /** In sign-up mode, a mismatch is reported before a short password, and
      neither submission reaches the network. */
  lemma MismatchReportedFirst(p: Page, result: CallResult)
    requires !p.isLogin && p.form.password != p.form.confirmPassword && |p.form.password| < 6
    ensures Submit(p, result).toast.description == Mismatch
    ensures Submit(p, result).call.None?
  {
  }
}
