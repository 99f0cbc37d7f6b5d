/** The session-token slot across the auth and user handlers. The invariant
    `SlotsBound` says every non-empty slot holds a refresh token that names
    its own user; under it a token is held by at most one user, a refresh
    rotates the slot so the old cookie stops working, and a logout ends the
    session for good. */
module Sessions {
  import opened Records
  import opened Jwt
  import opened Auth
  import Users

  /** Every non-empty slot holds a refresh token naming the slot's user. */
  predicate SlotsBound(users: map<Id, User>) {
    forall u :: u in users && users[u].refreshToken != "" ==>
      VerifyRefresh(users[u].refreshToken).Some? && VerifyRefresh(users[u].refreshToken).value.id == u
  }

  /** Under the invariant, two users never hold the same non-empty token, so
      each live token belongs to one session. */
  lemma OneHolder(users: map<Id, User>, u: Id, v: Id)
    requires SlotsBound(users)
    requires u in users && v in users && users[u].refreshToken != ""
    requires users[u].refreshToken == users[v].refreshToken
    ensures u == v
  {
  }

  // ---------------------------------------------------------------------------
  // Preservation

  lemma RegisterKeepsSlotsBound(db: Db, form: Registration, found: Option<Id>, newId: Id, now: nat)
    requires FindsByEmail(db.users, form.email, found) && newId !in db.users
    requires SlotsBound(db.users)
    ensures SlotsBound(Register(db, form, found, newId, now).db.users)
  {
  }

  lemma LoginKeepsSlotsBound(db: Db, email: string, password: string, found: Option<Id>, now: nat)
    requires FindsByEmail(db.users, email, found)
    requires SlotsBound(db.users)
    ensures SlotsBound(Login(db, email, password, found, now).db.users)
  {
  }

  lemma LogoutKeepsSlotsBound(db: Db, caller: Id, paramId: Id, matched: Option<Id>, hadCookie: bool)
    requires matched.Some? ==> matched.value in db.users
    requires SlotsBound(db.users)
    ensures SlotsBound(Logout(db, caller, paramId, matched, hadCookie).db.users)
  {
  }

  lemma RefreshKeepsSlotsBound(db: Db, cookie: string, holder: Option<Id>, now: nat)
    requires Present(cookie) ==> FindsBySlot(db.users, cookie, holder)
    requires SlotsBound(db.users)
    ensures SlotsBound(Refresh(db, cookie, holder, now).db.users)
  {
  }

  lemma UserHandlersKeepSlotsBound(db: Db, caller: Id, id: Id, edit: string, form: Users.UserEdit, file: Option<string>)
    requires SlotsBound(db.users)
    ensures SlotsBound(Users.EditUser(db, caller, id, edit, form, file).db.users)
    ensures SlotsBound(Users.RemoveUser(db, caller, id).db.users)
  {
  }

  // ---------------------------------------------------------------------------
  // Session life cycle

  /** A freshly registered user can log in with the password they chose; the
      e-mail lookup can only find them, and the access token names them. */
  lemma RegisteredUserCanLogIn(db: Db, form: Registration, found: Option<Id>, newId: Id, now: nat,
                               found': Option<Id>, t: nat)
    requires FindsByEmail(db.users, form.email, found) && newId !in db.users
    requires Register(db, form, found, newId, now).code == Created
    requires FindsByEmail(Register(db, form, found, newId, now).db.users, form.email, found')
    ensures found' == Some(newId)
    ensures var s := Login(Register(db, form, found, newId, now).db, form.email, form.password, found', t);
      && s.code == Created
      && VerifyAccess(s.accessToken).Some?
      && VerifyAccess(s.accessToken).value.user.id == newId
  {
    var r := Register(db, form, found, newId, now);
    assert newId in r.db.users && r.db.users[newId].email == form.email;
  }

  /** After a login, the cookie it sets is held by exactly the user who logged
      in, so a refresh with it succeeds for that user. */
  lemma LoginThenRefresh(db: Db, email: string, password: string, found: Option<Id>, t: nat,
                         holder: Option<Id>, now: nat)
    requires FindsByEmail(db.users, email, found)
    requires SlotsBound(db.users)
    requires Login(db, email, password, found, t).code == Created
    requires FindsBySlot(Login(db, email, password, found, t).db.users, SignRefresh(found.value, t), holder)
    ensures holder == Some(found.value)
    ensures Refresh(Login(db, email, password, found, t).db, SignRefresh(found.value, t), holder, now).code == OK
  {
    var s := Login(db, email, password, found, t);
    LoginKeepsSlotsBound(db, email, password, found, t);
    JoinAvoids([RefreshTag, Escape(found.value), Decimal(t)], '.', ' ');
    assert SignRefresh(found.value, t) != "";
    if holder.Some? {
      OneHolder(s.db.users, found.value, holder.value);
    }
  }

  /** Rotation and reuse detection. After a refresh at a later time than the
      presented token was issued, no user holds the old token any more; a
      second refresh with it is refused with 403 and empties the slot of the
      user it names, ending the session the first refresh opened. */
  lemma RefreshRotates(db: Db, cookie: string, u: Id, now: nat, holder': Option<Id>, later: nat)
    requires SlotsBound(db.users)
    requires Present(cookie) && FindsBySlot(db.users, cookie, Some(u))
    requires VerifyRefresh(cookie).Some? && VerifyRefresh(cookie).value.iat < now
    requires FindsBySlot(Refresh(db, cookie, Some(u), now).db.users, cookie, holder')
    ensures holder' == None
    ensures var r := Refresh(db, cookie, Some(u), now);
      var again := Refresh(r.db, cookie, holder', later);
      && r.code == OK
      && again.code == Forbidden
      && u in again.db.users && again.db.users[u].refreshToken == ""
  {
    var r := Refresh(db, cookie, Some(u), now);
    VerifySignedRefresh(u, now);
    assert r.db.users[u].refreshToken != cookie;
  }

  /** After a logout (looking the caller up by `_id`), the caller's old cookie
      is held by nobody: a refresh with it is refused with 403 and the slot
      stays empty. */
  lemma LogoutThenRefresh(db: Db, caller: Id, hadCookie: bool, holder: Option<Id>, now: nat)
    requires SlotsBound(db.users)
    requires caller in db.users && Present(db.users[caller].refreshToken)
    requires FindsBySlot(LogoutFixed(db, caller, caller, hadCookie).db.users, db.users[caller].refreshToken, holder)
    ensures holder == None
    ensures var r := Refresh(LogoutFixed(db, caller, caller, hadCookie).db, db.users[caller].refreshToken, holder, now);
      && r.code == Forbidden
      && caller in r.db.users && r.db.users[caller].refreshToken == ""
  {
    var cookie := db.users[caller].refreshToken;
    if holder.Some? {
      var v := holder.value;
      assert v != caller;
      OneHolder(db.users, caller, v);
    }
  }

  /** A refresh with a cookie nobody holds and that does not verify changes nothing but the cookie. */
  lemma ForgedCookieChangesNothing(db: Db, cookie: string, now: nat)
    requires Present(cookie) && FindsBySlot(db.users, cookie, None)
    requires VerifyRefresh(cookie) == None
    ensures Refresh(db, cookie, None, now) == Session(Forbidden, "", Clear, db)
  {
  }
}
