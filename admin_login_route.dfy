/** POST /api/auth/admin-login: checking administrator credentials
    (src/app/api/auth/admin-login/route.ts). bcrypt's `compare` is the
    parameter `verify`. The handler reads the store and writes nothing. */
module AdminLoginRoute {
  import opened Schema
  import opened Text
  import RegisterRoute

  const Required := "Email and password are required"
  const InvalidCredentials := "Invalid admin credentials"
  const Authenticated := "Admin authentication successful"

  /** The success body: the account without its password hash. */
  datatype AdminSession = AdminSession(admin: PublicUser, message: string)

  /** The account `email` names (after lower-casing) is an administrator whose
      stored hash `verify` accepts for `password`. */
  predicate ValidAdmin(db: Db, email: string, password: string, verify: (string, string) -> bool) {
    var key := ToLower(email);
    key in db.users && db.users[key].role == ADMIN && verify(password, db.users[key].password)
  }

  /** The handler. */
  function AdminLogin(db: Db, email: Option<string>, password: Option<string>,
                      verify: (string, string) -> bool): (r: Reply<AdminSession>)
    ensures r == Error(400, Required) <==> !Present(email) || !Present(password)
    ensures r.Ok? <==> Present(email) && Present(password) && ValidAdmin(db, email.value, password.value, verify)
    // one message, whichever check failed
    ensures r.Error? && Present(email) && Present(password) ==> r == Error(401, InvalidCredentials)
    ensures r.Ok? ==>
      var key := ToLower(email.value);
      r.body == AdminSession(Hide(key, db.users[key]), Authenticated)
  {
    if !Present(email) || !Present(password) then
      Error(400, Required)
    else
      var key := ToLower(email.value);
      if key !in db.users || db.users[key].role != ADMIN then
        Error(401, InvalidCredentials)
      else if !verify(password.value, db.users[key].password) then
        Error(401, InvalidCredentials)
      else
        Ok(AdminSession(Hide(key, db.users[key]), Authenticated))
  }

  /** Whatever the case of the typed email, the same account is tried, and only
      an account stored under a lower-case email can ever log in. */
  lemma AdminLoginIgnoresEmailCase(db: Db, email: string, password: Option<string>, verify: (string, string) -> bool)
    requires email != ""
    ensures AdminLogin(db, Some(email), password, verify) == AdminLogin(db, Some(ToLower(email)), password, verify)
    ensures AdminLogin(db, Some(email), password, verify).Ok? ==>
      IsLowerCase(AdminLogin(db, Some(email), password, verify).body.admin.email)
  {
    ToLowerNormalizes(email);
  }

  /** Registering a voter changes no administrator login: every login request
      gets the same reply before and after. */
  lemma RegisterKeepsAdminLogin(db: Db, email: string, password: string, name: string, confirmPassword: string,
                                hash: string -> string, newId: Id,
                                loginEmail: Option<string>, loginPassword: Option<string>, verify: (string, string) -> bool)
    ensures var after := RegisterRoute.Register(db, email, password, name, confirmPassword, hash, newId).db;
      AdminLogin(after, loginEmail, loginPassword, verify) == AdminLogin(db, loginEmail, loginPassword, verify)
  {
  }
}
