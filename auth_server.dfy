/**
 * The request handlers of app.py: `register`, `login`, `dashboard_get` and `logout`,
 * over the user directory (the `users` collection with its unique index on
 * `email`) and the client's session dictionary. Each state-changing handler is a
 * method whose new state is that of a pure outcome function; the lemmas about
 * the handlers are stated on those functions.
 */
module AuthServer {
  import opened Wrappers
  import opened Utf8
  import opened Text
  import opened PasswordHasher
  import opened Recaptcha

  const MIN_PASSWORD_LENGTH := 8
  const MAX_PASSWORD_LENGTH := 200

  /** The status messages the index page can show. */
  datatype Message =
    | FillAllFields | RecaptchaFailed | InvalidEmailFormat | PasswordTooShort
    | PasswordTooLong | SystemError | AlreadyRegistered | Registered
    | FillLoginFields | InvalidCredentials

  /** The text rendered for each message. */
  function MessageText(m: Message): string {
    match m
    case FillAllFields => "Zəhmət olmasa bütün sahələri doldurun."
    case RecaptchaFailed => "reCAPTCHA doğrulanmadı. Yenidən cəhd edin."
    case InvalidEmailFormat => "E-mail formatı düzgün deyil."
    case PasswordTooShort => "Şifrə ən az 8 simvol olmalıdır."
    case PasswordTooLong => "Şifrə çox uzundur. Maksimum 200 simvol ola bilər."
    case SystemError => "Sistem xətası baş verdi. Yenidən cəhd edin."
    case AlreadyRegistered => "Bu e-mail ilə artıq qeydiyyat mövcuddur."
    case Registered => "Qeydiyyat uğurludur. İndi daxil ola bilərsiniz."
    case FillLoginFields => "E-mail və şifrə sahələrini doldurun."
    case InvalidCredentials => "E-mail və ya şifrə yanlışdır."
  }

  /**
   * A proof aid for `MessageTextInjective`: the ten texts have ten different
   * lengths, so comparing lengths is enough to tell two texts apart.
   */
  function MessageLength(m: Message): nat {
    match m
    case FillAllFields => 38
    case RecaptchaFailed => 42
    case InvalidEmailFormat => 28
    case PasswordTooShort => 31
    case PasswordTooLong => 49
    case SystemError => 43
    case AlreadyRegistered => 40
    case Registered => 47
    case FillLoginFields => 36
    case InvalidCredentials => 29
  }

  /** Each status message has its own text, so the rendered page tells them apart. */
  lemma MessageTextInjective(m1: Message, m2: Message)
    ensures MessageText(m1) == MessageText(m2) ==> m1 == m2
  {
    MessageTextLength(m1);
    MessageTextLength(m2);
  }

  lemma MessageTextLength(m: Message)
    ensures |MessageText(m)| == MessageLength(m)
  {
    match m
    case FillAllFields =>
    case RecaptchaFailed =>
    case InvalidEmailFormat =>
    case PasswordTooShort =>
    case PasswordTooLong =>
    case SystemError =>
    case AlreadyRegistered =>
    case Registered =>
    case FillLoginFields =>
    case InvalidCredentials =>
  }

  /** What a handler answers: a rendered page, a 403 or a redirect. */
  datatype Page =
    | Index(message: Message)
    | Dashboard(username: Option<string>, email: Option<string>)
    | Forbidden
    | RedirectToIndex

  /** A document of the `users` collection; `id` is `str(_id)`. */
  datatype UserRecord = UserRecord(id: string, username: string, email: string, passwordHash: Option<string>)

  /** The posted fields; None is a field that is absent from the form. */
  datatype RegisterForm = RegisterForm(
    username: Option<string>, email: Option<string>, password: Option<string>, recaptchaToken: Option<string>)

  datatype LoginForm = LoginForm(email: Option<string>, password: Option<string>)

  /**
   * The configured collaborators: the reCAPTCHA secret and endpoint, the
   * `validate_email` oracle (the normalised address, or None for
   * EmailNotValidError) and the hashing primitives.
   */
  datatype Services = Services(
    recaptchaSecret: string, siteverify: SiteVerify, validateEmail: string -> Option<string>, crypto: Crypto)

  /**
   * What one register request depends on besides its form: the client address,
   * the two salts `gensalt` draws, the `_id` the store assigns, and whether the
   * insert fails for a reason other than the unique index.
   */
  datatype RegisterContext = RegisterContext(
    remoteAddr: Option<string>, salt: Bytes, fallbackSalt: Bytes, newId: string, insertFault: bool)

  /** `form.get(name) or ""`. */
  function OrEmpty(v: Option<string>): (s: string)
    ensures v.None? ==> s == ""
    ensures v.Some? ==> s == v.value
  {
    match v
    case None => ""
    case Some(s) => s
  }

  // ---------------------------------------------------------------- directory

  /** Every record is filed under its own email: one record per email address. */
  ghost predicate ValidDirectory(users: map<string, UserRecord>) {
    forall e :: e in users ==> users[e].email == e
  }

  /** The `users` collection with the unique index on `email`. */
  class Directory {
    var users: map<string, UserRecord>

    ghost predicate Valid()
      reads this
    {
      ValidDirectory(users)
    }

    constructor ()
      ensures Valid() && users == map[]
    {
      users := map[];
    }

    /**
     * `insert_one`: fails, changing nothing, when a record with the same email
     * exists (the unique index) or the store faults.
     */
    method InsertOne(rec: UserRecord, fault: bool) returns (ok: bool)
      requires Valid()
      modifies this
      ensures Valid()
      ensures ok <==> !fault && rec.email !in old(users)
      ensures users == if ok then old(users)[rec.email := rec] else old(users)
    {
      if fault || rec.email in users {
        return false;
      }
      users := users[rec.email := rec];
      return true;
    }

    /** `find_one({"email": email})`: the record whose email field is `email`, if any. */
    method FindOne(email: string) returns (found: Option<UserRecord>)
      requires Valid()
      ensures found.Some? ==> found.value.email == email && found.value in users.Values
      ensures found.None? ==> forall e :: e in users ==> users[e].email != email
    {
      if email in users {
        return Some(users[email]);
      }
      return None;
    }
  }

  // ------------------------------------------------------------------ session

  /** The client's session dictionary. */
  class Session {
    var data: map<string, string>

    constructor ()
      ensures data == map[]
    {
      data := map[];
    }

    method Clear()
      modifies this
      ensures data == map[]
    {
      data := map[];
    }

    method Put(key: string, value: string)
      modifies this
      ensures data == old(data)[key := value]
    {
      data := data[key := value];
    }
  }

  // ----------------------------------------------------------------- register

  function RegUsername(f: RegisterForm): string { Strip(OrEmpty(f.username)) }

  function RegEmail(f: RegisterForm): string { Lower(Strip(OrEmpty(f.email))) }

  function RegPassword(f: RegisterForm): string { OrEmpty(f.password) }

  function RegHash(f: RegisterForm, svc: Services, ctx: RegisterContext): Option<string> {
    SafeHashPassword(svc.crypto, RegPassword(f), ctx.salt, ctx.fallbackSalt)
  }

  // The six guards of `register`, in the order the handler runs them.

  predicate FieldsFilled(f: RegisterForm) {
    RegUsername(f) != "" && RegEmail(f) != "" && RegPassword(f) != ""
  }

  predicate RecaptchaPasses(f: RegisterForm, svc: Services, ctx: RegisterContext) {
    VerifyRecaptcha(svc.recaptchaSecret, OrEmpty(f.recaptchaToken), ctx.remoteAddr, svc.siteverify)
  }

  predicate EmailAccepted(f: RegisterForm, svc: Services) {
    svc.validateEmail(RegEmail(f)).Some?
  }

  predicate LongEnough(f: RegisterForm) {
    |RegPassword(f)| >= MIN_PASSWORD_LENGTH
  }

  predicate ShortEnough(f: RegisterForm) {
    |RegPassword(f)| <= MAX_PASSWORD_LENGTH
  }

  /** `if not pw_hash`: None and the empty string both count as failure. */
  predicate HashCreated(f: RegisterForm, svc: Services, ctx: RegisterContext) {
    RegHash(f, svc, ctx).Some? && RegHash(f, svc, ctx).value != ""
  }

  predicate AllGuardsPass(f: RegisterForm, svc: Services, ctx: RegisterContext) {
    && FieldsFilled(f) && RecaptchaPasses(f, svc, ctx) && EmailAccepted(f, svc)
    && LongEnough(f) && ShortEnough(f) && HashCreated(f, svc, ctx)
  }

  /** The message of the first failing guard, or None when all pass. */
  function RegisterRejection(f: RegisterForm, svc: Services, ctx: RegisterContext): (r: Option<Message>)
    ensures r.None? <==> AllGuardsPass(f, svc, ctx)
  {
    if !FieldsFilled(f) then Some(FillAllFields)
    else if !RecaptchaPasses(f, svc, ctx) then Some(RecaptchaFailed)
    else if !EmailAccepted(f, svc) then Some(InvalidEmailFormat)
    else if !LongEnough(f) then Some(PasswordTooShort)
    else if !ShortEnough(f) then Some(PasswordTooLong)
    else if !HashCreated(f, svc, ctx) then Some(SystemError)
    else None
  }

  /** The record `register` inserts once every guard has passed. */
  function NewRecord(f: RegisterForm, svc: Services, ctx: RegisterContext): UserRecord
    requires svc.validateEmail(RegEmail(f)).Some?
  {
    UserRecord(ctx.newId, RegUsername(f), svc.validateEmail(RegEmail(f)).value, RegHash(f, svc, ctx))
  }

  /**
   * The message `register` renders and the directory after it. Once every guard
   * passes, the insert decides: a store fault or an email already on file gives
   * the "already registered" message, anything else `Registered`. The directory
   * changes only on `Registered`, by exactly one new record under a fresh email.
   */
  function RegisterOutcome(users: map<string, UserRecord>, f: RegisterForm, svc: Services, ctx: RegisterContext)
    : (r: (Message, map<string, UserRecord>))
    ensures r.0 != Registered ==> r.1 == users
    ensures AllGuardsPass(f, svc, ctx) ==>
      r.0 == (if ctx.insertFault || NewRecord(f, svc, ctx).email in users then AlreadyRegistered else Registered)
    ensures r.0 == Registered ==>
      AllGuardsPass(f, svc, ctx) &&
      NewRecord(f, svc, ctx).email !in users && r.1 == users[NewRecord(f, svc, ctx).email := NewRecord(f, svc, ctx)]
  {
    match RegisterRejection(f, svc, ctx)
    case Some(m) => (m, users)
    case None =>
      var rec := NewRecord(f, svc, ctx);
      if ctx.insertFault || rec.email in users then (AlreadyRegistered, users)
      else (Registered, users[rec.email := rec])
  }

  /**
   * The guard chain of `register` (app.py:135-165) step by step, as the
   * handler runs it: the first failing guard's message, or None and the record
   * to insert. Its contract ties it to the declarative `RegisterRejection` and
   * `NewRecord`, on which the lemmas below are stated.
   */
  method CheckRegistration(f: RegisterForm, svc: Services, ctx: RegisterContext)
    returns (rejection: Option<Message>, rec: UserRecord)
    ensures rejection == RegisterRejection(f, svc, ctx)
    ensures rejection.None? ==> EmailAccepted(f, svc) && rec == NewRecord(f, svc, ctx)
  {
    rec := UserRecord("", "", "", None);
    var username := RegUsername(f);
    var email := RegEmail(f);
    var password := RegPassword(f);
    var token := OrEmpty(f.recaptchaToken);
    if username == "" || email == "" || password == "" {
      return Some(FillAllFields), rec;
    }
    if !VerifyRecaptcha(svc.recaptchaSecret, token, ctx.remoteAddr, svc.siteverify) {
      return Some(RecaptchaFailed), rec;
    }
    var valid := svc.validateEmail(email);
    if valid.None? {
      return Some(InvalidEmailFormat), rec;
    }
    email := valid.value;
    if |password| < MIN_PASSWORD_LENGTH {
      return Some(PasswordTooShort), rec;
    }
    if |password| > MAX_PASSWORD_LENGTH {
      return Some(PasswordTooLong), rec;
    }
    var pwHash := SafeHashPassword(svc.crypto, password, ctx.salt, ctx.fallbackSalt);
    if pwHash.None? || pwHash.value == "" {
      return Some(SystemError), rec;
    }
    return None, UserRecord(ctx.newId, username, email, pwHash);
  }

  /** `register` (app.py:135-174). */
  method Register(dir: Directory, f: RegisterForm, svc: Services, ctx: RegisterContext) returns (page: Page)
    requires dir.Valid()
    modifies dir
    ensures dir.Valid()
    ensures page == Index(RegisterOutcome(old(dir.users), f, svc, ctx).0)
    ensures dir.users == RegisterOutcome(old(dir.users), f, svc, ctx).1
  {
    var rejection, rec := CheckRegistration(f, svc, ctx);
    if rejection.Some? {
      return Index(rejection.value);
    }
    var ok := dir.InsertOne(rec, ctx.insertFault);
    if !ok {
      return Index(AlreadyRegistered);
    }
    return Index(Registered);
  }

  // -------------------------------------------------------------------- login

  function LoginEmail(f: LoginForm): string { Lower(Strip(OrEmpty(f.email))) }

  function LoginPassword(f: LoginForm): string { OrEmpty(f.password) }

  /** The claims a successful login writes into the emptied session. */
  function SessionFor(u: UserRecord): (s: map<string, string>)
    ensures s.Keys == {"user_id", "username", "email"}
    ensures s["user_id"] == u.id && s["username"] == u.username && s["email"] == u.email
  {
    map["user_id" := u.id, "username" := u.username, "email" := u.email]
  }

  /**
   * The page `login` renders and the session after it. Only a successful login
   * touches the session, and then it holds exactly the matched record's claims.
   * An unknown email and a wrong password are the same failure.
   */
  function LoginOutcome(users: map<string, UserRecord>, session: map<string, string>, f: LoginForm,
                        crypto: Crypto, lookupFault: bool): (r: (Page, map<string, string>))
    ensures !r.0.Dashboard? ==> r.1 == session
    ensures r.0 == Index(FillLoginFields) <==> LoginEmail(f) == "" || LoginPassword(f) == ""
    ensures r.0 == Index(SystemError) <==> LoginEmail(f) != "" && LoginPassword(f) != "" && lookupFault
    ensures r.0.Dashboard? <==>
      LoginEmail(f) != "" && LoginPassword(f) != "" && !lookupFault && LoginEmail(f) in users &&
      SafeVerifyPassword(crypto, LoginPassword(f), users[LoginEmail(f)].passwordHash)
    ensures r.0.Dashboard? ==>
      r.0 == Dashboard(Some(users[LoginEmail(f)].username), Some(users[LoginEmail(f)].email))
    ensures r.0.Dashboard? ==>
      LoginEmail(f) in users && r.1 == SessionFor(users[LoginEmail(f)]) &&
      SafeVerifyPassword(crypto, LoginPassword(f), users[LoginEmail(f)].passwordHash)
    ensures r.0 == Index(InvalidCredentials) <==>
      LoginEmail(f) != "" && LoginPassword(f) != "" && !lookupFault &&
      (LoginEmail(f) !in users ||
       !SafeVerifyPassword(crypto, LoginPassword(f), users[LoginEmail(f)].passwordHash))
  {
    var email := LoginEmail(f);
    var password := LoginPassword(f);
    if email == "" || password == "" then (Index(FillLoginFields), session)
    else if lookupFault then (Index(SystemError), session)
    else if email !in users then (Index(InvalidCredentials), session)
    else
      var u := users[email];
      if !SafeVerifyPassword(crypto, password, u.passwordHash) then (Index(InvalidCredentials), session)
      else (Dashboard(Some(u.username), Some(u.email)), SessionFor(u))
  }

  /** `login` (app.py:178-203); `lookupFault` is `find_one` raising. */
  method Login(dir: Directory, sess: Session, f: LoginForm, crypto: Crypto, lookupFault: bool)
    returns (page: Page)
    requires dir.Valid()
    modifies sess
    ensures (page, sess.data) == LoginOutcome(dir.users, old(sess.data), f, crypto, lookupFault)
  {
    var email := Lower(Strip(OrEmpty(f.email)));
    var password := OrEmpty(f.password);
    if email == "" || password == "" {
      return Index(FillLoginFields);
    }
    if lookupFault {
      return Index(SystemError);
    }
    var user := dir.FindOne(email);
    if user.None? {
      return Index(InvalidCredentials);
    }
    var u := user.value;
    assert u == dir.users[email];
    if !SafeVerifyPassword(crypto, password, u.passwordHash) {
      return Index(InvalidCredentials);
    }
    sess.Clear();
    sess.Put("user_id", u.id);
    sess.Put("username", u.username);
    sess.Put("email", u.email);
    return Dashboard(Some(u.username), Some(u.email));
  }

  // ------------------------------------------------------- dashboard, logout

  function Lookup(data: map<string, string>, key: string): Option<string> {
    if key in data then Some(data[key]) else None
  }

  /** `dashboard_get` (app.py:206-210): 403 unless `user_id` is present and not empty. */
  method DashboardGet(sess: Session) returns (page: Page)
    ensures page == Forbidden <==> !("user_id" in sess.data && sess.data["user_id"] != "")
    ensures page != Forbidden ==> page == Dashboard(Lookup(sess.data, "username"), Lookup(sess.data, "email"))
  {
    var userId := Lookup(sess.data, "user_id");
    if userId.None? || userId.value == "" {
      return Forbidden;
    }
    return Dashboard(Lookup(sess.data, "username"), Lookup(sess.data, "email"));
  }

  /** `logout` (app.py:213-215): always clears the session. */
  method Logout(sess: Session) returns (page: Page)
    modifies sess
    ensures sess.data == map[] && page == RedirectToIndex
  {
    sess.Clear();
    return RedirectToIndex;
  }

  // ------------------------------------------------------------------- lemmas

  /**
   * `register` answers with the message of the first failing guard, in the
   * order: empty field, reCAPTCHA, email syntax, too short, too long, hashing
   * failed; only when all pass does it reach the insert.
   */
  lemma RegisterGuardOrder(users: map<string, UserRecord>, f: RegisterForm, svc: Services, ctx: RegisterContext)
    ensures var m := RegisterOutcome(users, f, svc, ctx).0;
      && (m == FillAllFields <==> !FieldsFilled(f))
      && (m == RecaptchaFailed <==> FieldsFilled(f) && !RecaptchaPasses(f, svc, ctx))
      && (m == InvalidEmailFormat <==>
            FieldsFilled(f) && RecaptchaPasses(f, svc, ctx) && !EmailAccepted(f, svc))
      && (m == PasswordTooShort <==>
            FieldsFilled(f) && RecaptchaPasses(f, svc, ctx) && EmailAccepted(f, svc) && !LongEnough(f))
      && (m == PasswordTooLong <==>
            FieldsFilled(f) && RecaptchaPasses(f, svc, ctx) && EmailAccepted(f, svc) && LongEnough(f) &&
            !ShortEnough(f))
      && (m == SystemError <==>
            FieldsFilled(f) && RecaptchaPasses(f, svc, ctx) && EmailAccepted(f, svc) && LongEnough(f) &&
            ShortEnough(f) && !HashCreated(f, svc, ctx))
      && (m in {AlreadyRegistered, Registered} <==> AllGuardsPass(f, svc, ctx))
  {
  }

  /** Registration keeps one record per email: the unique index on `email`. */
  lemma RegisterKeepsDirectoryValid(users: map<string, UserRecord>, f: RegisterForm, svc: Services, ctx: RegisterContext)
    requires ValidDirectory(users)
    ensures ValidDirectory(RegisterOutcome(users, f, svc, ctx).1)
  {
    var after := RegisterOutcome(users, f, svc, ctx).1;
    if RegisterOutcome(users, f, svc, ctx).0 == Registered {
      var rec := NewRecord(f, svc, ctx);
      forall e | e in after
        ensures after[e].email == e
      {
        if e != rec.email {
          assert after[e] == users[e];
        }
      }
    }
  }

  /** With no reCAPTCHA secret configured, nobody can register. */
  lemma EmptySecretBlocksRegistration(users: map<string, UserRecord>, f: RegisterForm, svc: Services, ctx: RegisterContext)
    requires svc.recaptchaSecret == ""
    ensures RegisterOutcome(users, f, svc, ctx).0 in {FillAllFields, RecaptchaFailed}
    ensures RegisterOutcome(users, f, svc, ctx).1 == users
  {
  }

  /**
   * What a successful registration stored: the stripped username, the
   * validator's form of the stripped, lower-cased email, and a hash of a
   * password of 8 to 200 characters whose hash verifies against that password
   * unless bcrypt refuses the password's own bytes (see `HashThenVerify`).
   */
  lemma RegisteredRecord(users: map<string, UserRecord>, f: RegisterForm, svc: Services, ctx: RegisterContext)
    requires Sound(svc.crypto)
    requires RegisterOutcome(users, f, svc, ctx).0 == Registered
    ensures var rec := NewRecord(f, svc, ctx);
      && rec.id == ctx.newId
      && rec.username == Strip(OrEmpty(f.username)) && rec.username != ""
      && Some(rec.email) == svc.validateEmail(Lower(Strip(OrEmpty(f.email))))
      && MIN_PASSWORD_LENGTH <= |OrEmpty(f.password)| <= MAX_PASSWORD_LENGTH
      && (SafeVerifyPassword(svc.crypto, OrEmpty(f.password), rec.passwordHash) <==>
          !(|Encode(OrEmpty(f.password))| <= BCRYPT_MAX_INPUT && svc.crypto.refuses(Encode(OrEmpty(f.password)))))
      && !ctx.insertFault
  {
    HashThenVerify(svc.crypto, OrEmpty(f.password), ctx.salt, ctx.fallbackSalt);
  }

  /**
   * Once an email is registered, a later registration that normalises to the
   * same email never succeeds and leaves the directory as it was.
   */
  lemma SecondRegistrationRejected(users: map<string, UserRecord>, f1: RegisterForm, f2: RegisterForm,
                                   svc: Services, ctx1: RegisterContext, ctx2: RegisterContext)
    requires RegisterOutcome(users, f1, svc, ctx1).0 == Registered
    requires svc.validateEmail(RegEmail(f2)) == svc.validateEmail(RegEmail(f1))
    ensures RegisterOutcome(RegisterOutcome(users, f1, svc, ctx1).1, f2, svc, ctx2).0 != Registered
    ensures RegisterOutcome(RegisterOutcome(users, f1, svc, ctx1).1, f2, svc, ctx2).1 == RegisterOutcome(users, f1, svc, ctx1).1
  {
  }

  /**
   * A login that fails on an unknown email and one that fails on a wrong
   * password render the same page and leave the session as it was.
   */
  lemma LoginFailuresIndistinguishable(users: map<string, UserRecord>, session: map<string, string>,
                                       unknown: LoginForm, wrong: LoginForm, crypto: Crypto)
    requires LoginEmail(unknown) != "" && LoginPassword(unknown) != "" && LoginEmail(unknown) !in users
    requires LoginEmail(wrong) != "" && LoginPassword(wrong) != "" && LoginEmail(wrong) in users
    requires !SafeVerifyPassword(crypto, LoginPassword(wrong), users[LoginEmail(wrong)].passwordHash)
    ensures LoginOutcome(users, session, unknown, crypto, false) == LoginOutcome(users, session, wrong, crypto, false)
    ensures LoginOutcome(users, session, unknown, crypto, false) == (Index(InvalidCredentials), session)
  {
  }

  /**
   * Registering and then logging in with the same email and password opens a
   * session for the new record, whatever the session held before, provided the
   * validator leaves the normalised email as it is and bcrypt accepts the
   * password's bytes (`RefusedPasswordLocksOut` and `RewrittenEmailLocksOut` show
   * what happens otherwise).
   */
  lemma RegisterThenLogin(users: map<string, UserRecord>, rf: RegisterForm, svc: Services, ctx: RegisterContext,
                          session: map<string, string>, lf: LoginForm)
    requires Sound(svc.crypto)
    requires RegisterOutcome(users, rf, svc, ctx).0 == Registered
    requires svc.validateEmail(RegEmail(rf)) == Some(RegEmail(rf))
    requires !(|Encode(RegPassword(rf))| <= BCRYPT_MAX_INPUT && svc.crypto.refuses(Encode(RegPassword(rf))))
    requires LoginEmail(lf) == RegEmail(rf) && LoginPassword(lf) == RegPassword(rf)
    ensures LoginOutcome(RegisterOutcome(users, rf, svc, ctx).1, session, lf, svc.crypto, false) ==
      (Dashboard(Some(RegUsername(rf)), Some(RegEmail(rf))), SessionFor(NewRecord(rf, svc, ctx)))
  {
    RegisteredRecord(users, rf, svc, ctx);
  }

  /**
   * A password of at most 72 bytes that bcrypt refuses still registers, through
   * the fallback hash, but logging in with it always fails as wrong credentials.
   */
  lemma RefusedPasswordLocksOut(users: map<string, UserRecord>, rf: RegisterForm, svc: Services, ctx: RegisterContext,
                                session: map<string, string>, lf: LoginForm)
    requires Sound(svc.crypto)
    requires RegisterOutcome(users, rf, svc, ctx).0 == Registered
    requires |Encode(RegPassword(rf))| <= BCRYPT_MAX_INPUT && svc.crypto.refuses(Encode(RegPassword(rf)))
    requires LoginEmail(lf) != "" && LoginPassword(lf) == RegPassword(rf)
    ensures LoginOutcome(RegisterOutcome(users, rf, svc, ctx).1, session, lf, svc.crypto, false) ==
      (Index(InvalidCredentials), session)
  {
    var after := RegisterOutcome(users, rf, svc, ctx).1;
    if LoginEmail(lf) in after {
      RefusedShortPasswordNeverVerifies(svc.crypto, RegPassword(rf), after[LoginEmail(lf)].passwordHash);
    }
  }

  /**
   * Login looks the account up by the stripped, lower-cased email as typed,
   * while registration files it under the validator's form of that email. When
   * the validator rewrites the address, typing the same email again does not
   * find the new account.
   */
  lemma RewrittenEmailLocksOut(users: map<string, UserRecord>, rf: RegisterForm, svc: Services, ctx: RegisterContext,
                               session: map<string, string>, lf: LoginForm)
    requires RegisterOutcome(users, rf, svc, ctx).0 == Registered
    requires svc.validateEmail(RegEmail(rf)) != Some(RegEmail(rf))
    requires RegEmail(rf) !in users
    requires LoginEmail(lf) == RegEmail(rf) && LoginPassword(lf) == RegPassword(rf)
    ensures LoginOutcome(RegisterOutcome(users, rf, svc, ctx).1, session, lf, svc.crypto, false) ==
      (Index(InvalidCredentials), session)
  {
  }

  /**
   * The same form posted twice, with every guard passing and no store fault,
   * registers the first time and is refused as already registered the second.
   */
  lemma RegisterTwiceSucceedsOnce(users: map<string, UserRecord>, f: RegisterForm, svc: Services,
                                  ctx1: RegisterContext, ctx2: RegisterContext)
    requires AllGuardsPass(f, svc, ctx1) && AllGuardsPass(f, svc, ctx2)
    requires !ctx1.insertFault && NewRecord(f, svc, ctx1).email !in users
    ensures RegisterOutcome(users, f, svc, ctx1).0 == Registered
    ensures RegisterOutcome(RegisterOutcome(users, f, svc, ctx1).1, f, svc, ctx2).0 == AlreadyRegistered
  {
  }

  /** The dashboard a login opens is the one `dashboard_get` then shows. */
  lemma DashboardAfterLogin(users: map<string, UserRecord>, session: map<string, string>, f: LoginForm,
                            crypto: Crypto, lookupFault: bool)
    requires LoginOutcome(users, session, f, crypto, lookupFault).0.Dashboard?
    requires users[LoginEmail(f)].id != ""
    ensures var (page, after) := LoginOutcome(users, session, f, crypto, lookupFault);
      "user_id" in after && after["user_id"] != "" &&
      page == Dashboard(Lookup(after, "username"), Lookup(after, "email"))
  {
  }
}
