/** POST /api/auth/register: creating a voter account
    (src/app/api/auth/register/route.ts). bcrypt's `hash` is the parameter
    `hash`; the id the database assigns the new row is the parameter `newId`. */
module RegisterRoute {
  import opened Schema

  const PasswordsDiffer := "Passwords do not match"
  const UserExists := "User already exists"

  /** The handler. The email is used exactly as sent (not lower-cased). */
  function Register(db: Db, email: string, password: string, name: string, confirmPassword: string,
                    hash: string -> string, newId: Id): (s: Step<PublicUser>)
    // the confirmation is checked before the store is consulted
    ensures s.reply == Error(400, PasswordsDiffer) <==> password != confirmPassword
    ensures s.reply == Error(400, UserExists) <==> password == confirmPassword && email in db.users
    ensures s.reply.Ok? <==> password == confirmPassword && email !in db.users
    ensures s.reply.Error? ==> s.db == db
    ensures s.reply.Ok? ==>
      // one new VOTER row holding the hash; existing accounts untouched
      && s.db.users.Keys == db.users.Keys + {email}
      && s.db.users[email] == User(newId, name, hash(password), VOTER)
      && (forall e :: e in db.users ==> s.db.users[e] == db.users[e])
      && s.db.codes == db.codes && s.db.candidates == db.candidates && s.db.votes == db.votes
      // the reply leaves the hash out
      && s.reply.body == PublicUser(newId, email, name, VOTER)
  {
    if password != confirmPassword then
      Step(db, Error(400, PasswordsDiffer))
    else if email in db.users then
      Step(db, Error(400, UserExists))
    else
      var user := User(newId, name, hash(password), VOTER);
      Step(db.(users := db.users[email := user]), Ok(Hide(email, user)))
  }

  /** The same email cannot register twice, whatever the second request holds. */
  lemma RegisterTwiceFails(db: Db, email: string, password: string, name: string, hash: string -> string, newId: Id,
                           password2: string, name2: string, confirm2: string, newId2: Id)
    requires Register(db, email, password, name, password, hash, newId).reply.Ok?
    ensures var after := Register(db, email, password, name, password, hash, newId).db;
      var again := Register(after, email, password2, name2, confirm2, hash, newId2);
      && again.reply.Error? && again.db == after
      && again.reply.status == 400
  {
  }

  /** Registration never creates an administrator. */
  lemma RegisterAddsNoAdmin(db: Db, email: string, password: string, name: string, confirmPassword: string,
                            hash: string -> string, newId: Id, e: string)
    ensures var after := Register(db, email, password, name, confirmPassword, hash, newId).db;
      e in after.users && after.users[e].role == ADMIN <==> e in db.users && db.users[e].role == ADMIN
  {
  }
}
