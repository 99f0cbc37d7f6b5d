/** The user-account routes (server/routes/users.js). Every route is guarded by
    the caller's id being the `:id` of the path. */
module Users {
  import opened Records

  /** The fields GET /users/:id returns: never the password hash or the session token. */
  datatype Profile = Profile(id: Id, firstName: string, lastName: string, profilePicture: string, email: string, createdAt: nat)

  /** The projection of a user record onto its public fields. */
  function ProfileOf(id: Id, u: User): (r: Profile) {
    Profile(id, u.firstName, u.lastName, u.profilePicture, u.email, u.createdAt)
  }

  /** The projection keeps every public field and nothing else: two records
      have the same profile exactly when they differ at most in password and
      session token. */
  lemma ProfileHidesSecrets(id: Id, u: User, v: User)
    ensures ProfileOf(id, u) == ProfileOf(id, v) <==> u.(password := v.password, refreshToken := v.refreshToken) == v
  {
  }

  /** GET /users/:id. */
  method GetUser(st: Store, caller: Id, id: Id) returns (code: int, profile: Option<Profile>)
    ensures code == Forbidden <==> caller != id
    ensures code == NotFound <==> caller == id && id !in st.users
    ensures code == OK <==> caller == id && id in st.users
    ensures code == OK ==> profile == Some(ProfileOf(id, st.users[id]))
    ensures code != OK ==> profile == None
  {
    if caller != id {
      return Forbidden, None;
    }
    if id !in st.users {
      return NotFound, None;
    }
    var u := st.users[id];
    return OK, Some(Profile(id, u.firstName, u.lastName, u.profilePicture, u.email, u.createdAt));
  }

  /** The body fields PUT /users/:id copies. */
  datatype UserEdit = UserEdit(firstName: string, lastName: string, email: string)

  /** PUT /users/:id?edit=true. `file` is the path the upload middleware stored
      the profile picture under, `None` when no file came. Without a file
      `req.file.path` throws: 500. The address is not checked for uniqueness. */
  function EditUser(db: Db, caller: Id, id: Id, edit: string, form: UserEdit, file: Option<string>): (r: Outcome)
    ensures r.code == Forbidden <==> caller != id
    ensures r.code == BadRequest <==> caller == id && edit != "true"
    ensures r.code == NotFound <==> caller == id && edit == "true" && id !in db.users
    ensures r.code == ServerError <==> caller == id && edit == "true" && id in db.users && file.None?
    ensures r.code == Created <==> caller == id && edit == "true" && id in db.users && file.Some?
    ensures r.code != Created ==> r.db == db
    ensures r.code == Created ==>
      && r.db == db.(users := r.db.users)
      && OnlyAt(r.db.users, db.users, id)
      && r.db.users[id] == db.users[id].(profilePicture := file.value, firstName := form.firstName,
                                         lastName := form.lastName, email := form.email)
  {
    if caller != id then Outcome(Forbidden, db)
    else if edit != "true" then Outcome(BadRequest, db)
    else if id !in db.users then Outcome(NotFound, db)
    else if file.None? then Outcome(ServerError, db)
    else
      var u := db.users[id].(profilePicture := file.value, firstName := form.firstName,
                             lastName := form.lastName, email := form.email);
      Outcome(Created, db.(users := db.users[id := u]))
  }

  /** PUT /users/:id as written. A request that carries a file fails in the
      upload middleware's destination callback, which calls `fs.mkdirSync`
      while users.js never imports `fs`; a request without one reaches the
      handler, which then fails on `req.file.path`. So no request edits a
      user. */
  function EditUserAsWritten(db: Db, caller: Id, id: Id, edit: string, form: UserEdit, file: Option<string>): (r: Outcome)
    ensures r.db == db
    ensures r.code != Created
    ensures file.Some? ==> r.code == ServerError
    ensures file.None? ==> r == EditUser(db, caller, id, edit, form, file)
  {
    if file.Some? then Outcome(ServerError, db) else EditUser(db, caller, id, edit, form, file)
  }

  method PutUser(st: Store, caller: Id, id: Id, edit: string, form: UserEdit, file: Option<string>) returns (code: int)
    modifies st
    ensures Outcome(code, st.State()) == EditUser(old(st.State()), caller, id, edit, form, file)
  {
    if caller != id {
      return Forbidden;
    }
    if edit != "true" {
      return BadRequest;
    }
    if id !in st.users {
      return NotFound;
    }
    var u := st.users[id];
    if file.None? {
      return ServerError;
    }
    u := u.(profilePicture := file.value);
    u := u.(firstName := form.firstName);
    u := u.(lastName := form.lastName);
    u := u.(email := form.email);
    st.users := st.users[id := u];
    return Created;
  }

  /** DELETE /users/:id: removes the user record only; the user's goals,
      milestones and logs stay. */
  function RemoveUser(db: Db, caller: Id, id: Id): (r: Outcome)
    ensures r.code == Forbidden <==> caller != id
    ensures r.code == NotFound <==> caller == id && id !in db.users
    ensures r.code == Created <==> caller == id && id in db.users
    ensures r.code != Created ==> r.db == db
    ensures r.code == Created ==>
      && r.db.users.Keys == db.users.Keys - {id}
      && (forall u :: u in r.db.users ==> r.db.users[u] == db.users[u])
      && r.db.goals == db.goals && r.db.milestones == db.milestones && r.db.logs == db.logs
  {
    if caller != id then Outcome(Forbidden, db)
    else if id !in db.users then Outcome(NotFound, db)
    else Outcome(Created, db.(users := db.users - {id}))
  }

  method DeleteUser(st: Store, caller: Id, id: Id) returns (code: int)
    modifies st
    ensures Outcome(code, st.State()) == RemoveUser(old(st.State()), caller, id)
  {
    if caller != id {
      return Forbidden;
    }
    if id !in st.users {
      return NotFound;
    }
    st.users := st.users - {id};
    return Created;
  }
}
