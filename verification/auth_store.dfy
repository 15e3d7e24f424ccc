/** The local user directory and the merged "current session" record, over a
    durable key/value store with one typed slot per key. */
module AuthStore {
  import opened Wrappers

  /** `AuthUser`: one registered identity. */
  datatype User = User(fullName: string, email: string, phone: string, location: string)

  /** `Partial<AuthUser>`: the current-session record, every field optional. */
  datatype Session = Session(
    fullName: Option<string>,
    email: Option<string>,
    phone: Option<string>,
    location: Option<string>)

  const EmptySession := Session(None, None, None, None)

  /** The durable store, one slot per key the core touches: `auth_users_list`,
      `auth_session` and `isAuthenticated`. `None` means the key is absent. */
  datatype Storage = Storage(
    usersList: Option<seq<User>>,
    authSession: Option<Session>,
    isAuthenticated: Option<string>)

  const EmptyStorage := Storage(None, None, None)

  // ---------------------------------------------------------------- session

  /** A field of the merged object `{ ...existing, ...update }`. */
  function Merge(existing: Option<string>, update: Option<string>): Option<string> {
    if update.Some? then update else existing
  }

  /** `getUserSession`: the stored session, or null. */
  function GetUserSession(st: Storage): (r: Option<Session>)
    ensures r.None? <==> st.authSession.None?
    ensures r.Some? ==> r.value == st.authSession.value
  {
    st.authSession
  }

  /** `saveUserSession`: fields given in `update` override, fields it leaves out
      keep the value they had, and a missing session counts as empty. */
  function SaveUserSession(st: Storage, update: Session): (st': Storage)
    ensures GetUserSession(st').Some?
    ensures var s := GetUserSession(st').value;
            var base := GetUserSession(st).GetOr(EmptySession);
            && (update.fullName.Some? ==> s.fullName == update.fullName)
            && (update.fullName.None? ==> s.fullName == base.fullName)
            && (update.email.Some? ==> s.email == update.email)
            && (update.email.None? ==> s.email == base.email)
            && (update.phone.Some? ==> s.phone == update.phone)
            && (update.phone.None? ==> s.phone == base.phone)
            && (update.location.Some? ==> s.location == update.location)
            && (update.location.None? ==> s.location == base.location)
    ensures st'.usersList == st.usersList && st'.isAuthenticated == st.isAuthenticated
  {
    var base := GetUserSession(st).GetOr(EmptySession);
    st.(authSession := Some(Session(
      Merge(base.fullName, update.fullName),
      Merge(base.email, update.email),
      Merge(base.phone, update.phone),
      Merge(base.location, update.location))))
  }

  /** Saving onto an absent session stores exactly the update, and saving the
      same update twice is the same as saving it once. */
  lemma SaveUserSessionFacts(st: Storage, update: Session)
    ensures st.authSession.None? ==> GetUserSession(SaveUserSession(st, update)) == Some(update)
    ensures SaveUserSession(SaveUserSession(st, update), update) == SaveUserSession(st, update)
  {
  }

  /** `clearUserSession`: removes `auth_session` and nothing else. */
  function ClearUserSession(st: Storage): (st': Storage)
    ensures GetUserSession(st') == None
    ensures st'.usersList == st.usersList && st'.isAuthenticated == st.isAuthenticated
  {
    st.(authSession := None)
  }

  // -------------------------------------------------------------- directory

  /** `getAllUsers`: the stored list, or the empty list when the key is absent. */
  function GetAllUsers(st: Storage): (r: seq<User>)
    ensures st.usersList.None? ==> r == []
    ensures st.usersList.Some? ==> r == st.usersList.value
  {
    st.usersList.GetOr([])
  }

  /** The search predicate of `userExists` and `findUserByEmailOrPhone`:
      exact, case-sensitive equality against either field. */
  predicate Matches(u: User, id: string) {
    u.email == id || u.phone == id
  }

  /** `Array.prototype.some` over the list with `Matches`. */
  function AnyMatch(users: seq<User>, id: string): (b: bool)
    ensures b <==> exists i :: 0 <= i < |users| && Matches(users[i], id)
  {
    if users == [] then false
    else Matches(users[0], id) || AnyMatch(users[1..], id)
  }

  /** `Array.prototype.findIndex` over the list with `Matches`: the first match. */
  function FirstMatch(users: seq<User>, id: string): (r: Option<nat>)
    ensures r.Some? ==> r.value < |users| && Matches(users[r.value], id)
    ensures r.Some? ==> forall j :: 0 <= j < r.value ==> !Matches(users[j], id)
    ensures r.None? <==> forall j :: 0 <= j < |users| ==> !Matches(users[j], id)
  {
    if users == [] then None
    else if Matches(users[0], id) then Some(0)
    else match FirstMatch(users[1..], id)
      case None => None
      case Some(i) => Some(i + 1)
  }

  /** `userExists`: some stored record carries `id` as its email or its phone. */
  function UserExists(st: Storage, id: string): (b: bool)
    ensures b <==> exists i :: 0 <= i < |GetAllUsers(st)| && Matches(GetAllUsers(st)[i], id)
  {
    AnyMatch(GetAllUsers(st), id)
  }

  /** `findUserByEmailOrPhone`: the first stored record, in list order, that carries
      `id` as its email or its phone; null exactly when `userExists(id)` is false. */
  function FindUser(st: Storage, id: string): (r: Option<User>)
    ensures r.None? <==> !UserExists(st, id)
    ensures r.Some? ==> exists i :: 0 <= i < |GetAllUsers(st)| && GetAllUsers(st)[i] == r.value
                          && Matches(r.value, id)
                          && forall j :: 0 <= j < i ==> !Matches(GetAllUsers(st)[j], id)
  {
    match FirstMatch(GetAllUsers(st), id)
    case None => None
    case Some(i) => Some(GetAllUsers(st)[i])
  }

  /** `registerUser`: a no-op when the new email or the new phone is already some
      record's email or phone; otherwise the record is appended at the end. */
  function RegisterUser(st: Storage, u: User): (st': Storage)
    ensures UserExists(st, u.email) || UserExists(st, u.phone) ==> st' == st
    ensures !UserExists(st, u.email) && !UserExists(st, u.phone) ==>
              && GetAllUsers(st') == GetAllUsers(st) + [u]
              && st'.usersList.Some?
              && st'.authSession == st.authSession
              && st'.isAuthenticated == st.isAuthenticated
    ensures GetAllUsers(st) <= GetAllUsers(st')
    ensures UserExists(st', u.email) || UserExists(st', u.phone)
    ensures st' != st ==> UserExists(st', u.email) && UserExists(st', u.phone)
  {
    if UserExists(st, u.email) || UserExists(st, u.phone) then st
    else
      var users' := GetAllUsers(st) + [u];
      assert users'[|users'| - 1] == u;
      st.(usersList := Some(users'))
  }

  /** A registration can leave one of the new identifiers unknown: when the email
      is taken by a record with another phone, the call is a no-op and the new
      phone still does not exist. */
  lemma RegisterCanLeavePhoneUnknown()
    ensures var st := Storage(Some([User("A", "a@x.io", "1111111111", "")]), None, None);
            var u := User("B", "a@x.io", "2222222222", "");
            RegisterUser(st, u) == st && !UserExists(RegisterUser(st, u), u.phone)
  {
    var st := Storage(Some([User("A", "a@x.io", "1111111111", "")]), None, None);
    assert Matches(GetAllUsers(st)[0], "a@x.io");
  }

  /** The directory invariant `registerUser` maintains: two different records
      never share an identifier, whether as email or as phone. */
  ghost predicate DisjointIdentifiers(users: seq<User>) {
    forall i, j :: 0 <= i < |users| && 0 <= j < |users| && i != j ==>
      !Matches(users[j], users[i].email) && !Matches(users[j], users[i].phone)
  }

  /** Uniqueness of identity: emails pairwise distinct, phones pairwise distinct. */
  ghost predicate Unique(users: seq<User>) {
    forall i, j :: 0 <= i < j < |users| ==>
      users[i].email != users[j].email && users[i].phone != users[j].phone
  }

  lemma DisjointIdentifiersUnique(users: seq<User>)
    requires DisjointIdentifiers(users)
    ensures Unique(users)
  {
    forall i, j | 0 <= i < j < |users|
      ensures users[i].email != users[j].email && users[i].phone != users[j].phone
    {
      assert !Matches(users[j], users[i].email) && !Matches(users[j], users[i].phone);
    }
  }

  /** `registerUser` preserves the directory invariant. */
  lemma RegisterPreservesDisjoint(st: Storage, u: User)
    requires DisjointIdentifiers(GetAllUsers(st))
    ensures DisjointIdentifiers(GetAllUsers(RegisterUser(st, u)))
  {
    var users := GetAllUsers(st);
    var users' := GetAllUsers(RegisterUser(st, u));
    if users' != users {
      assert users' == users + [u];
      forall i, j | 0 <= i < |users'| && 0 <= j < |users'| && i != j
        ensures !Matches(users'[j], users'[i].email) && !Matches(users'[j], users'[i].phone)
      {
        if i == |users| {
          assert users'[i] == u && users'[j] == users[j];
          assert !Matches(users[j], u.email) && !Matches(users[j], u.phone);
        } else if j == |users| {
          assert users'[j] == u && users'[i] == users[i];
          assert !Matches(users[i], u.email) && !Matches(users[i], u.phone);
        } else {
          assert users'[i] == users[i] && users'[j] == users[j];
        }
      }
    }
  }

  /** `registerUser` keeps emails and phones pairwise distinct. */
  lemma RegisterPreservesUnique(st: Storage, u: User)
    requires Unique(GetAllUsers(st))
    ensures Unique(GetAllUsers(RegisterUser(st, u)))
  {
    var users := GetAllUsers(st);
    var users' := GetAllUsers(RegisterUser(st, u));
    if users' != users {
      assert users' == users + [u];
      forall i, j | 0 <= i < j < |users'|
        ensures users'[i].email != users'[j].email && users'[i].phone != users'[j].phone
      {
        if j == |users| {
          assert users'[i] == users[i] && users'[j] == u;
          assert !Matches(users[i], u.email) && !Matches(users[i], u.phone);
        } else {
          assert users'[i] == users[i] && users'[j] == users[j];
        }
      }
    }
  }

  /** Registering a sequence of users one after another. */
  function RegisterAll(st: Storage, us: seq<User>): Storage
    decreases |us|
  {
    if us == [] then st else RegisterAll(RegisterUser(st, us[0]), us[1..])
  }

  /** Whatever is registered, in whatever order, a directory that starts empty (or
      starts with disjoint identifiers) keeps emails and phones unique. */
  lemma {:induction false} RegisterAllUnique(st: Storage, us: seq<User>)
    requires DisjointIdentifiers(GetAllUsers(st))
    ensures DisjointIdentifiers(GetAllUsers(RegisterAll(st, us)))
    ensures Unique(GetAllUsers(RegisterAll(st, us)))
    decreases |us|
  {
    if us == [] {
      DisjointIdentifiersUnique(GetAllUsers(st));
    } else {
      RegisterPreservesDisjoint(st, us[0]);
      RegisterAllUnique(RegisterUser(st, us[0]), us[1..]);
    }
  }
}
