/** InMemoryUserStorage: a `HashMap` from id to user, the `HashSet` of
    registered emails (which, like any Java set, may hold null) and the
    last id handed out. */
module UserStorage {
  import opened Wrappers
  import opened Entities
  import opened Maps

  datatype UserStore = UserStore(users: map<int, User>, emails: set<Option<string>>, lastId: int)

  const Empty := UserStore(map[], {}, 0)

  /** Every stored user sits under its own id, below the counter. */
  predicate Valid(st: UserStore) {
    && st.lastId >= 0
    && forall k :: k in st.users ==> 1 <= k <= st.lastId && st.users[k].id == k
  }

  datatype Stored = Stored(store: UserStore, user: User)

  /** createUser: the next counter value becomes the id, the email joins
      the email set, and the user is stored under the id. */
  function CreateUser(st: UserStore, user: User): (r: Stored)
    ensures r.user == user.(id := st.lastId + 1)
    ensures r.store.lastId == st.lastId + 1
    ensures r.store.emails == st.emails + {user.email}
    ensures r.store.users.Keys == st.users.Keys + {r.user.id} && r.store.users[r.user.id] == r.user
  {
    var id := st.lastId + 1;
    var created := user.(id := id);
    Stored(UserStore(st.users[id := created], st.emails + {user.email}, id), created)
  }

  /** The id a valid store assigns is fresh, earlier users are kept and the
      store stays valid. */
  lemma CreateIsFresh(st: UserStore, user: User)
    requires Valid(st)
    ensures var r := CreateUser(st, user);
            && r.user.id !in st.users
            && (forall k :: k in st.users ==> r.store.users[k] == st.users[k])
            && Valid(r.store)
  {
  }

  /** updateUser: the user is put under the given id; the email set is not
      touched. */
  function UpdateUser(st: UserStore, userId: int, user: User): (r: UserStore)
    ensures r.users.Keys == st.users.Keys + {userId} && r.users[userId] == user
    ensures forall k :: k in st.users && k != userId ==> r.users[k] == st.users[k]
    ensures r.emails == st.emails && r.lastId == st.lastId
  {
    st.(users := st.users[userId := user])
  }

  /** getUserById. */
  function GetUserById(st: UserStore, userId: int): (r: Option<User>)
    ensures r.None? <==> userId !in st.users
    ensures r.Some? ==> r.value == st.users[userId]
  {
    if userId in st.users then Some(st.users[userId]) else None
  }

  /** getAllEmails / isEmailExists: membership in the email set. */
  predicate IsEmailExists(st: UserStore, email: Option<string>) {
    email in st.emails
  }

  /** retrieveAllUsers: every stored user, once. */
  function RetrieveAllUsers(st: UserStore): (r: seq<User>)
    ensures |r| == |st.users.Keys|
    ensures forall k :: k in st.users ==> st.users[k] in r
    ensures forall i :: 0 <= i < |r| ==> exists k :: k in st.users && st.users[k] == r[i]
  {
    ValuesByKey(st.users)
  }

  /** removeById: an absent id is NotFound; otherwise the user's email
      leaves the email set and the user leaves the map. */
  function RemoveById(st: UserStore, userId: int): (r: Result<Stored>)
    ensures r.Err? <==> userId !in st.users
    ensures r.Err? ==> r.error == NotFound
    ensures r.Ok? ==> && r.value.user == st.users[userId]
                      && r.value.store.users.Keys == st.users.Keys - {userId}
                      && r.value.store.emails == st.emails - {st.users[userId].email}
                      && r.value.store.lastId == st.lastId
    ensures r.Ok? ==> forall k :: k in r.value.store.users ==> r.value.store.users[k] == st.users[k]
  {
    match GetUserById(st, userId)
    case None => Err(NotFound)
    case Some(u) => Ok(Stored(UserStore(st.users - {userId}, st.emails - {u.email}, st.lastId), u))
  }

  /** Removing what was just created gives back the users and emails before,
      unless the email was already registered: the counter is not rewound. */
  lemma CreateThenRemove(st: UserStore, user: User)
    requires Valid(st) && user.email !in st.emails
    ensures var c := CreateUser(st, user);
            RemoveById(c.store, c.user.id) == Ok(Stored(st.(lastId := st.lastId + 1), c.user))
  {
    var c := CreateUser(st, user);
    assert c.store.users - {c.user.id} == st.users;
    assert c.store.emails - {user.email} == st.emails;
  }
}
