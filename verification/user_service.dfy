/** UserServiceImpl over the in-memory user store: registration with the
    email uniqueness check, PATCH-style update, lookup, listing and removal.
    The DTO and the entity carry the same three fields, so the DTO is a
    `User` whose id is ignored. */
module UserService {
  import opened Wrappers
  import opened Entities
  import opened Text
  import UserStorage

  type UserStore = UserStorage.UserStore
  type Stored = UserStorage.Stored

  /** The store invariant the email set exists to keep: users sit under
      their ids, every user has an email, the email set is exactly the
      users' emails, and no two users share one. */
  ghost predicate Inv(st: UserStore) {
    && UserStorage.Valid(st)
    && (forall k :: k in st.users ==> st.users[k].email.Some?)
    && st.emails == (set k | k in st.users :: st.users[k].email)
    && (forall k1, k2 :: k1 in st.users && k2 in st.users && st.users[k1].email == st.users[k2].email ==> k1 == k2)
  }

  lemma EmptyInv()
    ensures Inv(UserStorage.Empty)
  {
  }

  /** validate: a null email, then an empty name, are refused; a null name
      fails `isEmpty` with a NullPointerException. A blank name passes. */
  function ValidateUser(u: User): (r: Outcome)
    ensures u.email.None? ==> r == Fail(Validation)
    ensures u.email.Some? && u.name.None? ==> r == Fail(Unhandled)
    ensures r == Pass <==> u.email.Some? && u.name.Some? && |u.name.value| > 0
  {
    if u.email.None? then Fail(Validation)
    else if u.name.None? then Fail(Unhandled)
    else if |u.name.value| == 0 then Fail(Validation)
    else Pass
  }

  /** createUser: a registered email is a conflict, checked before
      validation; a valid user is stored under a fresh id. */
  function CreateUser(st: UserStore, dto: User): (r: Result<Stored>)
    ensures UserStorage.IsEmailExists(st, dto.email) ==> r == Err(Conflict)
    ensures r.Ok? <==> && !UserStorage.IsEmailExists(st, dto.email)
                       && dto.email.Some? && dto.name.Some? && |dto.name.value| > 0
    ensures r.Ok? ==> && r.value.user == dto.(id := st.lastId + 1)
                      && r.value.user.id in r.value.store.users
                      && r.value.store.users[r.value.user.id] == r.value.user
                      && r.value.store.emails == st.emails + {dto.email}
  {
    if UserStorage.IsEmailExists(st, dto.email) then Err(Conflict)
    else match ValidateUser(dto)
    case Fail(e) => Err(e)
    case Pass => Ok(UserStorage.CreateUser(st, dto))
  }

  /** Registration keeps the invariant. */
  lemma CreateKeepsInv(st: UserStore, dto: User)
    requires Inv(st) && CreateUser(st, dto).Ok?
    ensures Inv(CreateUser(st, dto).value.store)
  {
    var r := CreateUser(st, dto).value.store;
    var id := st.lastId + 1;
    assert r.users == st.users[id := dto.(id := id)];
    assert r.emails == (set k | k in r.users :: r.users[k].email) by {
      forall e | e in r.emails ensures e in (set k | k in r.users :: r.users[k].email) {
        if e != dto.email {
          var k :| k in st.users && st.users[k].email == e;
          assert r.users[k].email == e;
        } else {
          assert r.users[id].email == e;
        }
      }
      forall e | e in (set k | k in r.users :: r.users[k].email) ensures e in r.emails {
        var k :| k in r.users && r.users[k].email == e;
        if k != id {
          assert st.users[k].email == e;
        }
      }
    }
    forall k1, k2 | k1 in r.users && k2 in r.users && r.users[k1].email == r.users[k2].email ensures k1 == k2 {
    }
  }

  /** A patch value takes effect when it is non-null and non-blank. */
  predicate Overwrites(v: Option<string>) {
    v.Some? && !IsBlank(v.value)
  }

  /** The fields getUserValid copies from the patch onto the stored user. */
  function MergeUser(stored: User, patch: User): (r: User)
    ensures r.id == stored.id
    ensures r.name == (if Overwrites(patch.name) then patch.name else stored.name)
    ensures r.email == (if Overwrites(patch.email) then patch.email else stored.email)
  {
    stored.(name := if Overwrites(patch.name) then patch.name else stored.name,
            email := if Overwrites(patch.email) then patch.email else stored.email)
  }

  /** updateUser as written: the caller must exist; a new email already in
      the email set is a conflict; otherwise the old email leaves the set,
      but the new one is never added to it. */
  function UpdateUser(st: UserStore, userId: int, dto: User): (r: Result<Stored>)
    ensures userId !in st.users ==> r == Err(NotFound)
    ensures r.Err? ==> r.error in {NotFound, Conflict}
    ensures userId in st.users ==>
              (r == Err(Conflict) <==> Overwrites(dto.email) && UserStorage.IsEmailExists(st, dto.email))
    ensures r.Ok? ==> && userId in st.users
                      && r.value.user == MergeUser(st.users[userId], dto)
                      && r.value.store.users == st.users[userId := r.value.user]
                      && r.value.store.emails == (if Overwrites(dto.email) then st.emails - {st.users[userId].email} else st.emails)
  {
    var stored :- (match UserStorage.GetUserById(st, userId)
                   case None => Err(NotFound)
                   case Some(u) => Ok(u));
    :- Need(!(Overwrites(dto.email) && UserStorage.IsEmailExists(st, dto.email)), Conflict);
    var emails := if Overwrites(dto.email) then st.emails - {stored.email} else st.emails;
    var updated := MergeUser(stored, dto);
    Ok(UserStorage.Stored(UserStorage.UpdateUser(st.(emails := emails), userId, updated), updated))
  }

  /** updateUser as evidently intended: the new email replaces the old one
      in the email set. */
  function UpdateUserFixed(st: UserStore, userId: int, dto: User): (r: Result<Stored>)
    ensures userId !in st.users ==> r == Err(NotFound)
    ensures r.Err? ==> r.error in {NotFound, Conflict}
    ensures userId in st.users ==>
              (r == Err(Conflict) <==> Overwrites(dto.email) && UserStorage.IsEmailExists(st, dto.email))
    ensures r.Ok? ==> && userId in st.users
                      && r.value.user == MergeUser(st.users[userId], dto)
                      && r.value.store.users == st.users[userId := r.value.user]
    ensures r.Ok? ==> r.value.store.emails ==
                        (if Overwrites(dto.email) then st.emails - {st.users[userId].email} + {dto.email} else st.emails)
  {
    var stored :- (match UserStorage.GetUserById(st, userId)
                   case None => Err(NotFound)
                   case Some(u) => Ok(u));
    :- Need(!(Overwrites(dto.email) && UserStorage.IsEmailExists(st, dto.email)), Conflict);
    var emails := if Overwrites(dto.email) then st.emails - {stored.email} + {dto.email} else st.emails;
    var updated := MergeUser(stored, dto);
    Ok(UserStorage.Stored(UserStorage.UpdateUser(st.(emails := emails), userId, updated), updated))
  }

  /** The two updates differ only in the email set. */
  lemma FixedDiffersOnlyInEmailSet(st: UserStore, userId: int, dto: User)
    ensures UpdateUser(st, userId, dto).Ok? <==> UpdateUserFixed(st, userId, dto).Ok?
    ensures UpdateUser(st, userId, dto).Ok? ==>
              && UpdateUser(st, userId, dto).value.user == UpdateUserFixed(st, userId, dto).value.user
              && UpdateUser(st, userId, dto).value.store.users == UpdateUserFixed(st, userId, dto).value.store.users
  {
  }

  /** As written, a changed email is held by the user but missing from the
      email set, so the set no longer indexes the users' emails. */
  lemma UpdateLosesNewEmail(st: UserStore, userId: int, dto: User)
    requires Inv(st) && UpdateUser(st, userId, dto).Ok? && Overwrites(dto.email)
    ensures var r := UpdateUser(st, userId, dto).value.store;
            r.users[userId].email == dto.email && dto.email !in r.emails
  {
  }

  /** The scenario that shows it: Ann registers a@x and changes it to b@x;
      Bob can then register b@x, and two users share one email. */
  lemma DuplicateEmailAfterUpdate()
    ensures var c1 := CreateUser(UserStorage.Empty, User(0, Some("Ann"), Some("a@x")));
            && c1.Ok?
            && var u := UpdateUser(c1.value.store, 1, User(0, None, Some("b@x")));
            && u.Ok?
            && var c2 := CreateUser(u.value.store, User(0, Some("Bob"), Some("b@x")));
            && c2.Ok?
            && c2.value.store.users[1].email == c2.value.store.users[2].email == Some("b@x")
            && !Inv(c2.value.store)
  {
    assert !IsBlank("b@x") by { assert !IsWhitespace("b@x"[0]); }
    var c1 := CreateUser(UserStorage.Empty, User(0, Some("Ann"), Some("a@x")));
    var u := UpdateUser(c1.value.store, 1, User(0, None, Some("b@x")));
    assert Some("b@x") != Some("a@x") by { assert "b@x"[0] != "a@x"[0]; }
    var c2 := CreateUser(u.value.store, User(0, Some("Bob"), Some("b@x")));
    assert c2.value.store.users[1].email == c2.value.store.users[2].email;
  }

  /** The corrected update refuses Bob's registration in the same scenario. */
  lemma FixedRejectsDuplicate()
    ensures var c1 := CreateUser(UserStorage.Empty, User(0, Some("Ann"), Some("a@x")));
            && c1.Ok?
            && var u := UpdateUserFixed(c1.value.store, 1, User(0, None, Some("b@x")));
            && u.Ok?
            && CreateUser(u.value.store, User(0, Some("Bob"), Some("b@x"))) == Err(Conflict)
  {
    assert !IsBlank("b@x") by { assert !IsWhitespace("b@x"[0]); }
    assert Some("b@x") != Some("a@x") by { assert "b@x"[0] != "a@x"[0]; }
  }

  /** Re-submitting one's own email is refused as a conflict. */
  lemma OwnEmailIsConflict(st: UserStore, userId: int, dto: User)
    requires Inv(st) && userId in st.users && dto.email == st.users[userId].email && Overwrites(dto.email)
    ensures UpdateUser(st, userId, dto) == Err(Conflict)
    ensures UpdateUserFixed(st, userId, dto) == Err(Conflict)
  {
  }

  /** The corrected update keeps the invariant. */
  lemma UpdateFixedKeepsInv(st: UserStore, userId: int, dto: User)
    requires Inv(st) && UpdateUserFixed(st, userId, dto).Ok?
    ensures Inv(UpdateUserFixed(st, userId, dto).value.store)
  {
    var old_ := st.users[userId];
    var u := MergeUser(old_, dto);
    var r := UpdateUserFixed(st, userId, dto).value.store;
    assert r.users == st.users[userId := u];
    assert r.emails == (set k | k in r.users :: r.users[k].email) by {
      forall e | e in r.emails ensures e in (set k | k in r.users :: r.users[k].email) {
        if e == u.email {
          assert r.users[userId].email == e;
        } else {
          var k :| k in st.users && st.users[k].email == e;
          assert k != userId || !Overwrites(dto.email);
          assert r.users[k].email == e;
        }
      }
      forall e | e in (set k | k in r.users :: r.users[k].email) ensures e in r.emails {
        var k :| k in r.users && r.users[k].email == e;
        if k != userId {
          assert st.users[k].email == e;
          assert e in st.emails;
          assert e != old_.email;
        } else if !Overwrites(dto.email) {
          assert e == old_.email && e in st.emails;
        }
      }
    }
    assert Overwrites(dto.email) ==> forall k :: k in st.users ==> st.users[k].email != dto.email;
    forall k1, k2 | k1 in r.users && k2 in r.users && r.users[k1].email == r.users[k2].email ensures k1 == k2 {
    }
  }

  /** removeUserById: the caller must exist; the user and its email go. */
  function RemoveUserById(st: UserStore, userId: int): (r: Result<UserStore>)
    ensures r.Err? <==> userId !in st.users
    ensures r.Err? ==> r.error == NotFound
    ensures r.Ok? ==> r.value.users.Keys == st.users.Keys - {userId}
    ensures r.Ok? ==> st.users[userId].email !in r.value.emails
    ensures r.Ok? ==> r.value.emails == st.emails - {st.users[userId].email} && r.value.lastId == st.lastId
    ensures r.Ok? ==> forall k :: k in r.value.users ==> r.value.users[k] == st.users[k]
  {
    var removed :- UserStorage.RemoveById(st, userId);
    Ok(removed.store)
  }

  /** Removal keeps the invariant. */
  lemma RemoveKeepsInv(st: UserStore, userId: int)
    requires Inv(st) && userId in st.users
    ensures Inv(RemoveUserById(st, userId).value)
  {
    var r := RemoveUserById(st, userId).value;
    var gone := st.users[userId].email;
    assert r.users == st.users - {userId};
    assert r.emails == (set k | k in r.users :: r.users[k].email) by {
      forall e | e in r.emails ensures e in (set k | k in r.users :: r.users[k].email) {
        var k :| k in st.users && st.users[k].email == e;
        assert k != userId;
        assert r.users[k].email == e;
      }
      forall e | e in (set k | k in r.users :: r.users[k].email) ensures e in r.emails {
        var k :| k in r.users && r.users[k].email == e;
        assert st.users[k].email == e && k != userId;
      }
    }
  }

  /** getUserById. */
  function GetUserById(st: UserStore, userId: int): (r: Result<User>)
    ensures r.Err? <==> userId !in st.users
    ensures r.Err? ==> r.error == NotFound
    ensures r.Ok? ==> r.value == st.users[userId]
  {
    match UserStorage.GetUserById(st, userId)
    case None => Err(NotFound)
    case Some(u) => Ok(u)
  }

  /** A registered user is found under the id it was given. */
  lemma CreatedUserIsFound(st: UserStore, dto: User)
    requires UserStorage.Valid(st) && CreateUser(st, dto).Ok?
    ensures var c := CreateUser(st, dto).value;
            GetUserById(c.store, c.user.id) == Ok(c.user)
  {
  }

  /** retrieveAllUsers: every stored user, once. */
  function RetrieveAllUsers(st: UserStore): (r: seq<User>)
    ensures |r| == |st.users.Keys|
    ensures forall k :: k in st.users ==> st.users[k] in r
    ensures forall i :: 0 <= i < |r| ==> exists k :: k in st.users && st.users[k] == r[i]
  {
    UserStorage.RetrieveAllUsers(st)
  }
}
