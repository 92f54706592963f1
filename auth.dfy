/**
 * Authentication in routes/auth.js: the form validators, the login / registration / change-password
 * decisions, and the session state machine around `req.session.user` and `req.session.returnTo`.
 *
 * bcrypt is a parameter `matches(password, hash)`, and the hash of a new password is an input. The
 * express-validator checks `isEmail` and `normalizeEmail` are inputs too: `emailValid` and an email
 * already in normal form.
 */
module Auth {
  import opened Wrappers
  import Text
  import Cart

  /** A row of `users`. */
  datatype UserRow = UserRow(id: int, name: string, email: string, passwordHash: string, phone: Option<string>, isAdmin: bool)

  /** `req.session.user`. */
  datatype SessionUser = SessionUser(id: int, name: string, email: string, isAdmin: bool)

  function SessionOf(u: UserRow): SessionUser {
    SessionUser(u.id, u.name, u.email, u.isAdmin)
  }

  // ---------------------------------------------------------------------------------------------
  // Field validators

  /** The name as stored: `trim()` runs after the length check, so the check sees the raw name. */
  function Trim(s: string): string {
    Text.TrimEnd(Text.TrimStart(s))
  }

  /** `isLength({ min: 2, max: 50 })`, on the name as typed. */
  predicate NameOk(name: string) {
    2 <= |name| <= 50
  }

  /**
   * The length check runs before `trim()`: a name that passes is stored with at most 50 characters, but
   * surrounding blanks count towards the minimum, so ` a` passes and is stored as `a`.
   */
  lemma NameCheckedBeforeTrim(name: string)
    ensures NameOk(name) ==> |Trim(name)| <= 50
    ensures NameOk(" a") && Trim(" a") == "a"
  {
    assert Text.IsSpace(' ');
    assert " a"[1..] == "a";
    assert Text.TrimStart("a") == "a";
    assert Text.TrimEnd("a") == "a";
  }

  /** `isLength({ min: 6 })` on a password. */
  predicate PasswordOk(password: string) {
    |password| >= 6
  }

  /** `isLength({ min: 1 })`. */
  predicate NonEmpty(s: string) {
    |s| >= 1
  }

  /** `/^\(\d{2}\)\s\d{4,5}-\d{4}$/`. */
  predicate PhoneMatches(s: string) {
    && (|s| == 14 || |s| == 15)
    && s[0] == '(' && Text.IsDigit(s[1]) && Text.IsDigit(s[2]) && s[3] == ')' && Text.IsSpace(s[4])
    && Text.AllDigits(s[5..|s| - 5])
    && s[|s| - 5] == '-'
    && Text.AllDigits(s[|s| - 4..])
  }

  /** `optional({ checkFalsy: true }).matches(...)`: an absent or empty phone passes unchecked. */
  predicate PhoneOk(phone: Option<string>) {
    phone.None? || phone.value == "" || PhoneMatches(phone.value)
  }

  /** The form fields a validation error can name, in the order the validators run. */
  datatype Field = Name | Email | Password | ConfirmPassword | Phone | CurrentPassword | NewPassword

  function FieldMessage(f: Field): string {
    match f
    case Name => "Nome deve ter entre 2 e 50 caracteres"
    case Email => "Digite um email válido"
    case Password => "Senha deve ter pelo menos 6 caracteres"
    case ConfirmPassword => "Confirmação de senha não confere"
    case Phone => "Telefone deve estar no formato (11) 99999-9999"
    case CurrentPassword => "Digite sua senha atual"
    case NewPassword => "Nova senha deve ter pelo menos 6 caracteres"
  }

  function When(bad: bool, f: Field): seq<Field> {
    if bad then [f] else []
  }

  /** The failing fields of the login form (its password message is "Digite sua senha"). */
  function LoginErrors(emailValid: bool, password: string): (errs: seq<Field>)
    ensures errs == [] <==> emailValid && NonEmpty(password)
    ensures Email in errs <==> !emailValid
    ensures Password in errs <==> !NonEmpty(password)
  {
    When(!emailValid, Email) + When(!NonEmpty(password), Password)
  }

  /** The failing fields of the registration form, one per failing validator. */
  function RegistrationErrors(name: string, emailValid: bool, password: string, confirm: string, phone: Option<string>): (errs: seq<Field>)
    ensures errs == [] <==> NameOk(name) && emailValid && PasswordOk(password) && confirm == password && PhoneOk(phone)
    ensures Name in errs <==> !NameOk(name)
    ensures Email in errs <==> !emailValid
    ensures Password in errs <==> !PasswordOk(password)
    ensures ConfirmPassword in errs <==> confirm != password
    ensures Phone in errs <==> !PhoneOk(phone)
  {
    When(!NameOk(name), Name) + When(!emailValid, Email) + When(!PasswordOk(password), Password)
      + When(confirm != password, ConfirmPassword) + When(!PhoneOk(phone), Phone)
  }

  /** The failing fields of the change-password form: the same length and confirmation rules, on `newPassword`. */
  function ChangePasswordErrors(current: string, newPassword: string, confirm: string): (errs: seq<Field>)
    ensures errs == [] <==> NonEmpty(current) && PasswordOk(newPassword) && confirm == newPassword
    ensures CurrentPassword in errs <==> !NonEmpty(current)
    ensures NewPassword in errs <==> !PasswordOk(newPassword)
    ensures ConfirmPassword in errs <==> confirm != newPassword
  {
    When(!NonEmpty(current), CurrentPassword) + When(!PasswordOk(newPassword), NewPassword)
      + When(confirm != newPassword, ConfirmPassword)
  }

  /** Every string the phone pattern accepts is a two-digit area code in parentheses, a space, 4 or 5 digits, a dash and 4 digits. */
  lemma PhoneMatchesHasShape(s: string)
    requires PhoneMatches(s)
    ensures var k := |s| - 10;
      && (k == 4 || k == 5)
      && s == "(" + s[1..3] + ")" + [s[4]] + s[5..5 + k] + "-" + s[5 + k + 1..]
      && Text.AllDigits(s[1..3]) && Text.IsSpace(s[4]) && Text.AllDigits(s[5..5 + k]) && Text.AllDigits(s[5 + k + 1..])
      && |s[5 + k + 1..]| == 4
  {
    var k := |s| - 10;
    assert s == "(" + s[1..3] + ")" + [s[4]] + s[5..5 + k] + "-" + s[5 + k + 1..];
  }

  /** Conversely, every string of that shape is accepted. */
  lemma PhoneShapeMatches(area: string, sp: char, prefix: string, line: string)
    requires |area| == 2 && Text.AllDigits(area)
    requires Text.IsSpace(sp)
    requires (|prefix| == 4 || |prefix| == 5) && Text.AllDigits(prefix)
    requires |line| == 4 && Text.AllDigits(line)
    ensures PhoneMatches("(" + area + ")" + [sp] + prefix + "-" + line)
  {
    var s := "(" + area + ")" + [sp] + prefix + "-" + line;
    assert s[5..|s| - 5] == prefix;
    assert s[|s| - 4..] == line;
  }

  // ---------------------------------------------------------------------------------------------
  // Lookups and decisions

  predicate UniqueEmails(users: seq<UserRow>) {
    forall i, j :: 0 <= i < j < |users| ==> users[i].email != users[j].email
  }

  predicate UniqueIds(users: seq<UserRow>) {
    forall i, j :: 0 <= i < j < |users| ==> users[i].id != users[j].id
  }

  /** `SELECT * FROM users WHERE email = ?`. */
  function FindByEmail(users: seq<UserRow>, email: string): (r: Option<UserRow>)
    ensures r.None? <==> forall i :: 0 <= i < |users| ==> users[i].email != email
    ensures r.Some? ==> r.value in users && r.value.email == email
  {
    if |users| == 0 then None
    else if users[0].email == email then Some(users[0])
    else FindByEmail(users[1..], email)
  }

  /** `SELECT * FROM users WHERE id = ?`. */
  function FindById(users: seq<UserRow>, id: int): (r: Option<UserRow>)
    ensures r.None? <==> forall i :: 0 <= i < |users| ==> users[i].id != id
    ensures r.Some? ==> r.value in users && r.value.id == id
  {
    if |users| == 0 then None
    else if users[0].id == id then Some(users[0])
    else FindById(users[1..], id)
  }

  /** Why an auth form was refused; `Message` gives the single error the page shows for it. */
  datatype AuthError = Invalid(fields: seq<Field>) | BadCredentials | EmailTaken | WrongCurrentPassword | InternalError

  function Message(e: AuthError): string
    requires !e.Invalid?
  {
    match e
    case BadCredentials => "Email ou senha incorretos"
    case EmailTaken => "Este email já está cadastrado"
    case WrongCurrentPassword => "Senha atual incorreta"
    case InternalError => "Erro interno do servidor"
  }

  /** `POST /auth/login`: the user that becomes the session user, or why not. */
  function LoginDecision(users: seq<UserRow>, emailValid: bool, email: string, password: string,
                         matches: (string, string) -> bool): (r: Result<SessionUser, AuthError>)
    ensures LoginErrors(emailValid, password) != [] ==> r == Failure(Invalid(LoginErrors(emailValid, password)))
    ensures r.Failure? ==> r.error.Invalid? || r.error == BadCredentials
    ensures r.Success? ==> r.value.email == email && FindByEmail(users, email).Some? && SessionOf(FindByEmail(users, email).value) == r.value
  {
    var errs := LoginErrors(emailValid, password);
    if errs != [] then Failure(Invalid(errs))
    else
      var u := FindByEmail(users, email);
      if u.None? || !matches(password, u.value.passwordHash) then Failure(BadCredentials)
      else Success(SessionOf(u.value))
  }

  /** `req.session.returnTo || '/'`. */
  function LoginTarget(returnTo: Option<string>): (target: string)
    ensures returnTo.Some? && returnTo.value != "" ==> target == returnTo.value
    ensures returnTo.None? || returnTo.value == "" ==> target == "/"
  {
    if returnTo.Some? && returnTo.value != "" then returnTo.value else "/"
  }

  /** `POST /auth/cadastro`: the row to insert, or why not; `newId` is the id the insert will be given. */
  function RegisterDecision(users: seq<UserRow>, name: string, emailValid: bool, email: string, password: string,
                            confirm: string, phone: Option<string>, hash: string, newId: int): (r: Result<UserRow, AuthError>)
    ensures RegistrationErrors(name, emailValid, password, confirm, phone) != [] ==>
      r == Failure(Invalid(RegistrationErrors(name, emailValid, password, confirm, phone)))
    ensures r.Failure? ==> r.error.Invalid? || r.error == EmailTaken
    ensures r.Success? ==>
      && FindByEmail(users, email).None?
      && r.value.id == newId && r.value.email == email && r.value.passwordHash == hash && !r.value.isAdmin
      && |r.value.name| <= 50
  {
    var errs := RegistrationErrors(name, emailValid, password, confirm, phone);
    if errs != [] then Failure(Invalid(errs))
    else if FindByEmail(users, email).Some? then Failure(EmailTaken)
    else
      var storedPhone := if phone.Some? && phone.value != "" then phone else None;
      NameCheckedBeforeTrim(name);
      Success(UserRow(newId, Trim(name), email, hash, storedPhone, false))
  }

  /** `UPDATE users SET password = ? WHERE id = ?`. */
  function SetPasswordHash(users: seq<UserRow>, id: int, hash: string): (r: seq<UserRow>)
    ensures |r| == |users|
    ensures forall i :: 0 <= i < |r| ==> r[i] == if users[i].id == id then users[i].(passwordHash := hash) else users[i]
  {
    seq(|users|, i requires 0 <= i < |users| => if users[i].id == id then users[i].(passwordHash := hash) else users[i])
  }

  /**
   * `POST /auth/alterar-senha` for signed-in user `id`: the new users table, or why not. A missing row makes
   * the source read `user.password` of `undefined` and answer with the internal-error message.
   */
  function ChangePasswordDecision(users: seq<UserRow>, id: int, current: string, newPassword: string, confirm: string,
                                  matches: (string, string) -> bool, newHash: string): (r: Result<seq<UserRow>, AuthError>)
    ensures ChangePasswordErrors(current, newPassword, confirm) != [] ==>
      r == Failure(Invalid(ChangePasswordErrors(current, newPassword, confirm)))
    ensures r.Failure? ==> r.error.Invalid? || r.error == InternalError || r.error == WrongCurrentPassword
    ensures r.Success? ==> FindById(users, id).Some? && |r.value| == |users|
  {
    var errs := ChangePasswordErrors(current, newPassword, confirm);
    if errs != [] then Failure(Invalid(errs))
    else
      var u := FindById(users, id);
      if u.None? then Failure(InternalError)
      else if !matches(current, u.value.passwordHash) then Failure(WrongCurrentPassword)
      else Success(SetPasswordHash(users, id, newHash))
  }

  // ---------------------------------------------------------------------------------------------
  // Properties of the decisions

  /** With unique emails, a valid login form signs in exactly when some user has that email and the password matches its hash. */
  lemma LoginSucceedsIff(users: seq<UserRow>, email: string, password: string, matches: (string, string) -> bool)
    requires UniqueEmails(users) && NonEmpty(password)
    ensures LoginDecision(users, true, email, password, matches).Success?
        <==> exists i :: 0 <= i < |users| && users[i].email == email && matches(password, users[i].passwordHash)
    ensures LoginDecision(users, true, email, password, matches).Success? ==>
        var u := LoginDecision(users, true, email, password, matches).value;
        u.email == email && exists i :: 0 <= i < |users| && SessionOf(users[i]) == u
  {
    var u := FindByEmail(users, email);
    if u.Some? {
      var j :| 0 <= j < |users| && users[j] == u.value;
      if exists i :: 0 <= i < |users| && users[i].email == email && matches(password, users[i].passwordHash) {
        var i :| 0 <= i < |users| && users[i].email == email && matches(password, users[i].passwordHash);
        assert i == j;
      }
    }
  }

  /** An unknown email and a wrong password are refused with the same error, so the page cannot tell them apart. */
  lemma LoginFailuresIndistinguishable(users: seq<UserRow>, email: string, password: string, matches: (string, string) -> bool)
    requires NonEmpty(password)
    requires LoginDecision(users, true, email, password, matches).Failure?
    ensures LoginDecision(users, true, email, password, matches).error == BadCredentials
    ensures Message(BadCredentials) == "Email ou senha incorretos"
  {
  }

  /** Registering a taken email inserts nothing; a fresh one inserts a non-admin row with that email and the given id. */
  lemma RegisterOutcome(users: seq<UserRow>, name: string, email: string, password: string, phone: Option<string>,
                        hash: string, newId: int)
    requires RegistrationErrors(name, true, password, password, phone) == []
    ensures var r := RegisterDecision(users, name, true, email, password, password, phone, hash, newId);
      && (r.Failure? <==> exists i :: 0 <= i < |users| && users[i].email == email)
      && (r.Failure? ==> r.error == EmailTaken)
      && (r.Success? ==> !r.value.isAdmin && r.value.email == email && r.value.id == newId
                         && r.value.passwordHash == hash && r.value.name == Trim(name))
  {
  }

  /** Inserting a registered row keeps emails and ids unique. */
  lemma RegisterKeepsUnique(users: seq<UserRow>, name: string, emailValid: bool, email: string, password: string,
                            confirm: string, phone: Option<string>, hash: string, newId: int)
    requires UniqueEmails(users) && UniqueIds(users)
    requires forall i :: 0 <= i < |users| ==> users[i].id != newId
    requires RegisterDecision(users, name, emailValid, email, password, confirm, phone, hash, newId).Success?
    ensures var row := RegisterDecision(users, name, emailValid, email, password, confirm, phone, hash, newId).value;
      UniqueEmails(users + [row]) && UniqueIds(users + [row])
  {
    var row := RegisterDecision(users, name, emailValid, email, password, confirm, phone, hash, newId).value;
    var r := users + [row];
    forall i, j | 0 <= i < j < |r| ensures r[i].email != r[j].email && r[i].id != r[j].id {
      assert r[i] == users[i];
      if j < |users| { assert r[j] == users[j]; }
    }
  }

  /**
   * The stored hash changes only when the current password verifies: then exactly the signed-in user's row
   * takes the new hash; on any refusal the table is not touched.
   */
  lemma PasswordChangesOnlyOnVerify(users: seq<UserRow>, id: int, current: string, newPassword: string, confirm: string,
                                    matches: (string, string) -> bool, newHash: string)
    requires UniqueIds(users)
    ensures var r := ChangePasswordDecision(users, id, current, newPassword, confirm, matches, newHash);
      r.Success? <==> ChangePasswordErrors(current, newPassword, confirm) == [] && FindById(users, id).Some?
                      && matches(current, FindById(users, id).value.passwordHash)
    ensures var r := ChangePasswordDecision(users, id, current, newPassword, confirm, matches, newHash);
      r.Success? ==>
        && |r.value| == |users|
        && forall i :: 0 <= i < |users| ==>
             (users[i].id == id ==> r.value[i] == users[i].(passwordHash := newHash))
             && (users[i].id != id ==> r.value[i] == users[i])
  {
  }

  /** Changing a hash keeps every id and email, so it keeps both uniqueness rules. */
  lemma SetPasswordHashKeepsUnique(users: seq<UserRow>, id: int, hash: string)
    requires UniqueEmails(users) && UniqueIds(users)
    ensures UniqueEmails(SetPasswordHash(users, id, hash)) && UniqueIds(SetPasswordHash(users, id, hash))
  {
    var r := SetPasswordHash(users, id, hash);
    assert forall i :: 0 <= i < |r| ==> r[i].id == users[i].id && r[i].email == users[i].email;
  }

  /** What a guarded route does: carry on, or redirect to a path. */
  datatype Guard = Next | RedirectTo(path: string)

  /** `redirectIfAuthenticated`: a signed-in user visiting login or registration goes to `/`. */
  function RedirectIfAuthenticated(user: Option<SessionUser>): (g: Guard)
    ensures g.RedirectTo? <==> user.Some?
    ensures g.RedirectTo? ==> g.path == "/"
  {
    if user.Some? then RedirectTo("/") else Next
  }

  // ---------------------------------------------------------------------------------------------
  // The session

  /** The users table and the auth part of `req.session`. */
  class AuthContext {
    var users: seq<UserRow>
    var user: Option<SessionUser>
    var returnTo: Option<string>

    ghost predicate Valid()
      reads this
    {
      UniqueEmails(users) && UniqueIds(users)
    }

    constructor (rows: seq<UserRow>)
      requires UniqueEmails(rows) && UniqueIds(rows)
      ensures Valid() && users == rows && user.None? && returnTo.None?
    {
      users := rows;
      user := None;
      returnTo := None;
    }

    /** `requireAuth`: without a user, remember the requested URL and send to the login page. */
    method RequireAuth(originalUrl: string) returns (g: Guard)
      modifies this
      ensures users == old(users) && user == old(user)
      ensures old(user).None? ==> g == RedirectTo("/auth/login") && returnTo == Some(originalUrl)
      ensures old(user).Some? ==> g == Next && returnTo == old(returnTo)
    {
      if user.None? {
        returnTo := Some(originalUrl);
        return RedirectTo("/auth/login");
      }
      g := Next;
    }

    /** `POST /auth/login`: on success the session user is set, `returnTo` is consumed, and the answer is the redirect target. */
    method Login(emailValid: bool, email: string, password: string, matches: (string, string) -> bool)
      returns (r: Result<string, AuthError>)
      requires Valid()
      modifies this
      ensures Valid() && users == old(users)
      ensures match LoginDecision(old(users), emailValid, email, password, matches)
        case Failure(e) => r == Failure(e) && user == old(user) && returnTo == old(returnTo)
        case Success(u) => r == Success(LoginTarget(old(returnTo))) && user == Some(u) && returnTo.None?
    {
      var errs := LoginErrors(emailValid, password);
      if errs != [] {
        return Failure(Invalid(errs));
      }
      var row := FindByEmail(users, email);
      if row.None? {
        return Failure(BadCredentials);
      }
      var passwordMatch := matches(password, row.value.passwordHash);
      if !passwordMatch {
        return Failure(BadCredentials);
      }
      user := Some(SessionUser(row.value.id, row.value.name, row.value.email, row.value.isAdmin));
      var target := if returnTo.Some? && returnTo.value != "" then returnTo.value else "/";
      returnTo := None;
      r := Success(target);
    }

    /** `POST /auth/cadastro`: a fresh email inserts one row and signs its user in; on success the redirect is to `/`. */
    method Register(name: string, emailValid: bool, email: string, password: string, confirm: string,
                    phone: Option<string>, hash: string, newId: int) returns (r: Result<string, AuthError>)
      requires Valid()
      requires forall i :: 0 <= i < |users| ==> users[i].id != newId
      modifies this
      ensures Valid() && returnTo == old(returnTo)
      ensures match RegisterDecision(old(users), name, emailValid, email, password, confirm, phone, hash, newId)
        case Failure(e) => r == Failure(e) && users == old(users) && user == old(user)
        case Success(row) => r == Success("/") && users == old(users) + [row] && user == Some(SessionOf(row))
    {
      var errs := RegistrationErrors(name, emailValid, password, confirm, phone);
      if errs != [] {
        return Failure(Invalid(errs));
      }
      var existing := FindByEmail(users, email);
      if existing.Some? {
        return Failure(EmailTaken);
      }
      var stored := Trim(name);
      var row := UserRow(newId, stored, email, hash, if phone.Some? && phone.value != "" then phone else None, false);
      RegisterKeepsUnique(users, name, emailValid, email, password, confirm, phone, hash, newId);
      users := users + [row];
      user := Some(SessionUser(newId, stored, email, false));
      r := Success("/");
    }

    /**
     * `POST /auth/alterar-senha`: `requireAuth` first, then the form, then the current password. Only a
     * verified current password changes the stored hash.
     */
    method ChangePassword(originalUrl: string, current: string, newPassword: string, confirm: string,
                          matches: (string, string) -> bool, newHash: string) returns (r: Result<Guard, AuthError>)
      requires Valid()
      modifies this
      ensures Valid() && user == old(user)
      ensures old(user).None? ==>
        r == Success(RedirectTo("/auth/login")) && returnTo == Some(originalUrl) && users == old(users)
      ensures old(user).Some? ==> returnTo == old(returnTo)
      ensures old(user).Some? ==>
        match ChangePasswordDecision(old(users), old(user).value.id, current, newPassword, confirm, matches, newHash)
        case Failure(e) => r == Failure(e) && users == old(users)
        case Success(rows) => r == Success(Next) && users == rows
    {
      var g := RequireAuth(originalUrl);
      if g.RedirectTo? {
        return Success(g);
      }
      var errs := ChangePasswordErrors(current, newPassword, confirm);
      if errs != [] {
        return Failure(Invalid(errs));
      }
      var row := FindById(users, user.value.id);
      if row.None? {
        return Failure(InternalError);
      }
      if !matches(current, row.value.passwordHash) {
        return Failure(WrongCurrentPassword);
      }
      SetPasswordHashKeepsUnique(users, user.value.id, newHash);
      users := SetPasswordHash(users, user.value.id, newHash);
      r := Success(Next);
    }

    /**
     * `POST /auth/logout`: the session is destroyed, so besides the user and `returnTo` it loses the cart
     * and the selected shipping option kept in `session` (passed here as the session's cart).
     */
    method Logout(session: Cart.SessionCart)
      modifies this, session
      ensures users == old(users) && user.None? && returnTo.None?
      ensures session.cart.None? && session.selected.None? && session.Valid()
    {
      user := None;
      returnTo := None;
      session.cart := None;
      session.selected := None;
    }
  }

  /**
   * The return-to flow: a guest asking for a protected page is sent to login, and signing in then takes
   * them back to that page and forgets it.
   */
  method ReturnToFlow(rows: seq<UserRow>, i: nat, password: string, matches: (string, string) -> bool, url: string)
    returns (first: Guard, second: Result<string, AuthError>)
    requires UniqueEmails(rows) && UniqueIds(rows)
    requires i < |rows| && NonEmpty(password) && matches(password, rows[i].passwordHash) && url != ""
    ensures first == RedirectTo("/auth/login")
    ensures second == Success(url)
  {
    var ctx := new AuthContext(rows);
    first := ctx.RequireAuth(url);
    LoginSucceedsIff(rows, rows[i].email, password, matches);
    second := ctx.Login(true, rows[i].email, password, matches);
  }
}
