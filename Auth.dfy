/** The authentication routes (server/routes/auth.js): register, login, logout
    and refresh. Each user has one session-token slot (`refreshToken`): login
    fills it, logout empties it, refresh rotates it, and a refresh with a
    token that no slot holds empties the slot of the user the token names
    (reuse detection). */
module Auth {
  import opened Records
  import opened Jwt

  /** The body of POST /auth. */
  datatype Registration = Registration(firstName: string, lastName: string, email: string, password: string)

  predicate Complete(f: Registration) {
    Present(f.firstName) && Present(f.lastName) && Present(f.email) && Present(f.password)
  }

  /** What a response does to the `jwt` cookie. */
  datatype CookieAction = Keep | Clear | Set(token: string)

  /** A response of the session routes: status, access token in the body ("" if
      none), effect on the cookie, and the collections afterwards. */
  datatype Session = Session(code: int, accessToken: string, cookie: CookieAction, db: Db)

  /** `User.findOne({email})` may return `found`: some user with that address,
      or `None` when nobody has it. */
  predicate FindsByEmail(users: map<Id, User>, email: string, found: Option<Id>) {
    match found
    case Some(u) => u in users && users[u].email == email
    case None => forall u :: u in users ==> users[u].email != email
  }

  /** `User.findOne({refreshToken: token})` may return `holder`. */
  predicate FindsBySlot(users: map<Id, User>, token: string, holder: Option<Id>) {
    match holder
    case Some(u) => u in users && users[u].refreshToken == token
    case None => forall u :: u in users ==> users[u].refreshToken != token
  }

  /** The access-token claims login and refresh sign for user `id`. */
  function Identity(users: map<Id, User>, id: Id): (r: UserData)
    requires id in users
  {
    UserData(users[id].firstName, users[id].lastName, id, users[id].profilePicture)
  }

  // ---------------------------------------------------------------------------
  // POST /auth (register)

  /** The record register stores. The users schema is not part of this model:
      the picture and the token slot start empty, and `createdAt` is the
      time of the request. */
  function NewUser(f: Registration, now: nat): (r: User) {
    User(f.firstName, f.lastName, f.email, Hash(f.password), "", "", now)
  }

  /** POST /auth as written. `foundUser._id` is read before the null check, so
      an unused address throws a TypeError (500) and no user is ever created;
      a used address answers 400. */
  function RegisterAsWritten(db: Db, form: Registration, found: Option<Id>): (r: Outcome)
    requires FindsByEmail(db.users, form.email, found)
    ensures r.db == db
    ensures r.code == BadRequest <==> !Complete(form) || found.Some?
    ensures r.code == ServerError <==> Complete(form) && found.None?
  {
    if !Complete(form) then Outcome(BadRequest, db)
    else if found.None? then Outcome(ServerError, db)
    else Outcome(BadRequest, db)
  }

  /** POST /auth with the debugging dereference removed: a complete form with
      an unused address creates the user with the hashed password. */
  function Register(db: Db, form: Registration, found: Option<Id>, newId: Id, now: nat): (r: Outcome)
    requires FindsByEmail(db.users, form.email, found)
    requires newId !in db.users
    ensures r.code == BadRequest <==> !Complete(form) || found.Some?
    ensures r.code == Created <==> Complete(form) && found.None?
    ensures r.code != Created ==> r.db == db
    ensures r.code == Created ==>
      && r.db == db.(users := r.db.users)
      && r.db.users == db.users[newId := NewUser(form, now)]
      && Matches(form.password, r.db.users[newId].password)
      && (forall u :: u in r.db.users && r.db.users[u].email == form.email ==> u == newId)
    ensures Complete(form) && found.None? ==> RegisterAsWritten(db, form, found).code == ServerError
  {
    if !Complete(form) || found.Some? then Outcome(BadRequest, db)
    else Outcome(Created, db.(users := db.users[newId := NewUser(form, now)]))
  }

  method PostRegister(st: Store, form: Registration, found: Option<Id>, newId: Id, now: nat) returns (code: int)
    requires FindsByEmail(st.users, form.email, found)
    requires newId !in st.users
    modifies st
    ensures Outcome(code, st.State()) == Register(old(st.State()), form, found, newId, now)
  {
    if !Complete(form) {
      return BadRequest;
    }
    if found.Some? {
      return BadRequest;
    }
    var hashed := Hash(form.password);
    var user := User(form.firstName, form.lastName, form.email, hashed, "", "", now);
    st.users := st.users[newId := user];
    return Created;
  }

  // ---------------------------------------------------------------------------
  // POST /auth/login

  /** POST /auth/login at time `now`: on success both tokens are signed, the
      refresh token goes into the user's slot and into the cookie. */
  function Login(db: Db, email: string, password: string, found: Option<Id>, now: nat): (r: Session)
    requires FindsByEmail(db.users, email, found)
    ensures r.code == Unauthorized <==> !Present(email) || !Present(password)
    ensures r.code == NotFound <==> Present(email) && Present(password) && found.None?
    ensures r.code == Forbidden <==>
      Present(email) && Present(password) && found.Some? && !Matches(password, db.users[found.value].password)
    ensures r.code == Created <==>
      Present(email) && Present(password) && found.Some? && Matches(password, db.users[found.value].password)
    ensures r.code != Created ==> r.db == db && r.cookie == Keep && r.accessToken == ""
    ensures r.code == Created ==>
      var u := found.value;
      && r.db == db.(users := r.db.users)
      && r.db.users == db.users[u := db.users[u].(refreshToken := SignRefresh(u, now))]
      && r.cookie == Set(r.db.users[u].refreshToken)
      && VerifyRefresh(r.db.users[u].refreshToken) == Some(RefreshClaims(u, now))
      && VerifyAccess(r.accessToken) == Some(AccessClaims(Identity(db.users, u), now))
  {
    if !Present(email) || !Present(password) then Session(Unauthorized, "", Keep, db)
    else if found.None? then Session(NotFound, "", Keep, db)
    else
      var u := found.value;
      if !Matches(password, db.users[u].password) then Session(Forbidden, "", Keep, db)
      else
        var access := SignAccess(Identity(db.users, u), now);
        var refresh := SignRefresh(u, now);
        VerifySignedAccess(Identity(db.users, u), now);
        VerifySignedRefresh(u, now);
        Session(Created, access, Set(refresh), db.(users := db.users[u := db.users[u].(refreshToken := refresh)]))
  }

  method PostLogin(st: Store, email: string, password: string, found: Option<Id>, now: nat)
    returns (code: int, accessToken: string, cookie: CookieAction)
    requires FindsByEmail(st.users, email, found)
    modifies st
    ensures Session(code, accessToken, cookie, st.State()) == Login(old(st.State()), email, password, found, now)
  {
    if !Present(email) || !Present(password) {
      return Unauthorized, "", Keep;
    }
    if found.None? {
      return NotFound, "", Keep;
    }
    var user := st.users[found.value];
    if !Matches(password, user.password) {
      return Forbidden, "", Keep;
    }
    accessToken := SignAccess(UserData(user.firstName, user.lastName, found.value, user.profilePicture), now);
    var refreshToken := SignRefresh(found.value, now);
    user := user.(refreshToken := refreshToken);
    st.users := st.users[found.value := user];
    return Created, accessToken, Set(refreshToken);
  }

  // ---------------------------------------------------------------------------
  // POST /auth/logout/:id

  /** POST /auth/logout/:id as written. The lookup `User.findOne({id: ...})`
      filters on a field users do not have, so what it returns (`matched`)
      does not depend on the caller: depending on Mongoose's strictQuery it
      is whichever user the unfiltered query returns first, or nobody. That
      user's slot is emptied. The `jwt` cookie is cleared only when the
      request carried one (`hadCookie`). */
  function Logout(db: Db, caller: Id, paramId: Id, matched: Option<Id>, hadCookie: bool): (r: Session)
    requires matched.Some? ==> matched.value in db.users
    ensures r.code == Forbidden <==> caller != paramId
    ensures r.code == NotFound <==> caller == paramId && matched.None?
    ensures r.code == OK <==> caller == paramId && matched.Some?
    ensures r.code != OK ==> r.db == db && r.cookie == Keep
    ensures r.code == OK ==>
      && r.db == db.(users := r.db.users)
      && r.db.users == db.users[matched.value := db.users[matched.value].(refreshToken := "")]
      && (r.cookie == Clear <==> hadCookie)
      && (r.cookie == Keep <==> !hadCookie)
    ensures r.accessToken == ""
  {
    if caller != paramId then Session(Forbidden, "", Keep, db)
    else if matched.None? then Session(NotFound, "", Keep, db)
    else
      var u := matched.value;
      Session(OK, "", if hadCookie then Clear else Keep, db.(users := db.users[u := db.users[u].(refreshToken := "")]))
  }

  /** As written, a logout can leave the caller's own session token in place:
      when the lookup returns another user, that user's slot is emptied
      instead. */
  lemma LogoutMissesCaller(db: Db, caller: Id, other: Id, hadCookie: bool)
    requires caller in db.users && other in db.users && other != caller
    requires db.users[caller].refreshToken != ""
    ensures var r := Logout(db, caller, caller, Some(other), hadCookie);
      r.code == OK && caller in r.db.users && r.db.users[caller].refreshToken == db.users[caller].refreshToken
  {
  }

  /** POST /auth/logout/:id looking the caller up by `_id`: the caller's own
      slot is emptied. */
  function LogoutFixed(db: Db, caller: Id, paramId: Id, hadCookie: bool): (r: Session)
    ensures r.code == Forbidden <==> caller != paramId
    ensures r.code == NotFound <==> caller == paramId && caller !in db.users
    ensures r.code == OK <==> caller == paramId && caller in db.users
    ensures r.code != OK ==> r.db == db && r.cookie == Keep
    ensures r.code == OK ==>
      && r.db == db.(users := r.db.users)
      && r.db.users == db.users[caller := db.users[caller].(refreshToken := "")]
      && (r.cookie == Clear <==> hadCookie)
    ensures caller == paramId && caller in db.users ==> r == Logout(db, caller, paramId, Some(caller), hadCookie)
  {
    Logout(db, caller, paramId, if caller in db.users then Some(caller) else None, hadCookie)
  }

  method PostLogout(st: Store, caller: Id, paramId: Id, matched: Option<Id>, hadCookie: bool)
    returns (code: int, cookie: CookieAction)
    requires matched.Some? ==> matched.value in st.users
    modifies st
    ensures Session(code, "", cookie, st.State()) == Logout(old(st.State()), caller, paramId, matched, hadCookie)
  {
    if caller != paramId {
      return Forbidden, Keep;
    }
    if matched.None? {
      return NotFound, Keep;
    }
    var user := st.users[matched.value];
    user := user.(refreshToken := "");
    st.users := st.users[matched.value := user];
    cookie := Keep;
    if hadCookie {
      cookie := Clear;
    }
    return OK, cookie;
  }

  // ---------------------------------------------------------------------------
  // GET /auth/refresh

  /** GET /auth/refresh at time `now` with the `jwt` cookie `cookie` ("" when
      absent); `holder` is the user whose slot holds it. The cookie is
      cleared as soon as it is known to be present.
      - a holder: both tokens are reissued, the slot and the cookie get the
        new refresh token, 200;
      - no holder: 403; if the cookie verifies as a refresh token naming an
        existing user, that user's slot is emptied (reuse detection). */
  function Refresh(db: Db, cookie: string, holder: Option<Id>, now: nat): (r: Session)
    requires Present(cookie) ==> FindsBySlot(db.users, cookie, holder)
    ensures r.code == Unauthorized <==> !Present(cookie)
    ensures r.code == OK <==> Present(cookie) && holder.Some?
    ensures r.code == Forbidden <==> Present(cookie) && holder.None?
    ensures r.code == Unauthorized ==> r == Session(Unauthorized, "", Keep, db)
    ensures r.code == Forbidden ==>
      && r.cookie == Clear && r.accessToken == ""
      && r.db == db.(users := r.db.users)
      && var claims := VerifyRefresh(cookie);
      && (claims.Some? && claims.value.id in db.users ==>
            r.db.users == db.users[claims.value.id := db.users[claims.value.id].(refreshToken := "")])
      && (claims.None? || claims.value.id !in db.users ==> r.db == db)
    ensures r.code == OK ==>
      var u := holder.value;
      && r.db == db.(users := r.db.users)
      && r.db.users == db.users[u := db.users[u].(refreshToken := SignRefresh(u, now))]
      && r.cookie == Set(r.db.users[u].refreshToken)
      && VerifyRefresh(r.db.users[u].refreshToken) == Some(RefreshClaims(u, now))
      && VerifyAccess(r.accessToken) == Some(AccessClaims(Identity(db.users, u), now))
  {
    if !Present(cookie) then Session(Unauthorized, "", Keep, db)
    else if holder.None? then
      match VerifyRefresh(cookie)
      case Some(claims) =>
        if claims.id in db.users then
          Session(Forbidden, "", Clear, db.(users := db.users[claims.id := db.users[claims.id].(refreshToken := "")]))
        else Session(Forbidden, "", Clear, db)
      case None => Session(Forbidden, "", Clear, db)
    else
      var u := holder.value;
      var access := SignAccess(Identity(db.users, u), now);
      var refresh := SignRefresh(u, now);
      VerifySignedAccess(Identity(db.users, u), now);
      VerifySignedRefresh(u, now);
      Session(OK, access, Set(refresh), db.(users := db.users[u := db.users[u].(refreshToken := refresh)]))
  }

  method GetRefresh(st: Store, cookie: string, holder: Option<Id>, now: nat)
    returns (code: int, accessToken: string, cookieOut: CookieAction)
    requires Present(cookie) ==> FindsBySlot(st.users, cookie, holder)
    modifies st
    ensures Session(code, accessToken, cookieOut, st.State()) == Refresh(old(st.State()), cookie, holder, now)
  {
    if !Present(cookie) {
      return Unauthorized, "", Keep;
    }
    if holder.None? {
      var decoded := VerifyRefresh(cookie);
      if decoded.Some? && decoded.value.id in st.users {
        var hacked := st.users[decoded.value.id];
        hacked := hacked.(refreshToken := "");
        st.users := st.users[decoded.value.id := hacked];
      }
      return Forbidden, "", Clear;
    }
    var user := st.users[holder.value];
    accessToken := SignAccess(UserData(user.firstName, user.lastName, holder.value, user.profilePicture), now);
    var newRefreshToken := SignRefresh(holder.value, now);
    user := user.(refreshToken := newRefreshToken);
    st.users := st.users[holder.value := user];
    return OK, accessToken, Set(newRefreshToken);
  }
}
