/**
  The session store hook (src/hooks/useLocalstorageToken.ts).

  Browser storage is a map from key to stored record. The hook owns two
  keys, `user` (the whole auth response) and `jwtToken` (the access token
  alone), and keeps the signed-in user in memory as `currentUser`. Other
  keys may be present; the hook never touches them.

  Each operation is given twice: as a transition function on a `Session`
  value, whose contract states its effect and the invariants it keeps, and
  as a method of the `TokenStore` class that performs the writes in the
  source's order and is proved to reach the state the function describes.
 */
module LocalStorageToken {
  import opened Common

  /** `AuthResponseDto`: what the API returns on login or registration. */
  datatype AuthUser = AuthUser(
    userId: UserId,
    userName: string,
    email: string,
    avatar: string,
    token: string,
    refreshToken: string)

  /** A storage key: the two the hook uses, or any other key of the page. */
  datatype StorageKey = UserKey | TokenKey | OtherKey(name: string)

  /** The key names used in storage. */
  function KeyName(k: StorageKey): (name: string)
    ensures k == UserKey ==> name == "user"
    ensures k == TokenKey ==> name == "jwtToken"
  {
    match k
    case UserKey => "user"
    case TokenKey => "jwtToken"
    case OtherKey(n) => n
  }

  /** What a key holds: a serialised auth response, or plain text. */
  datatype Stored = UserRecord(user: AuthUser) | Text(text: string)

  type Storage = map<StorageKey, Stored>

  /** The value under `user` was written by this hook, so it parses as an auth response. */
  predicate WellFormed(storage: Storage) {
    UserKey in storage ==> storage[UserKey].UserRecord?
  }

  /** `localStorage.getItem("user")`, parsed. */
  function StoredUser(storage: Storage): (u: Option<AuthUser>)
    ensures u.Some? <==> UserKey in storage && storage[UserKey].UserRecord?
    ensures u.Some? ==> u.value == storage[UserKey].user
  {
    if UserKey in storage && storage[UserKey].UserRecord? then Some(storage[UserKey].user) else None
  }

  /** Everything the hook can observe or change. */
  datatype Session = Session(storage: Storage, currentUser: Option<AuthUser>)

  // ---------------------------------------------------------------------
  // Invariants
  // ---------------------------------------------------------------------

  /** The in-memory user is the one in storage. */
  predicate InSync(s: Session) {
    WellFormed(s.storage) && s.currentUser == StoredUser(s.storage)
  }

  /** A stored user and the stored `jwtToken` carry the same token. */
  predicate TokensAgree(s: Session) {
    StoredUser(s.storage).Some? ==>
      TokenKey in s.storage && s.storage[TokenKey] == Text(StoredUser(s.storage).value.token)
  }

  /** Keys other than `user` and `jwtToken` keep their values. */
  ghost predicate OthersUnchanged(before: Storage, after: Storage) {
    && (forall k: StorageKey :: k.OtherKey? && k in before ==> k in after && after[k] == before[k])
    && (forall k: StorageKey :: k.OtherKey? && k in after ==> k in before)
  }

  /** The `token` field: the current user's token, or null when there is none or it is "". */
  function TokenOf(s: Session): (t: Option<string>)
    ensures t.Some? <==> s.currentUser.Some? && s.currentUser.value.token != ""
    ensures t.Some? ==> t.value == s.currentUser.value.token
  {
    if s.currentUser.Some? && s.currentUser.value.token != "" then Some(s.currentUser.value.token) else None
  }

  // ---------------------------------------------------------------------
  // Transitions
  // ---------------------------------------------------------------------

  /**
    The lazy initial state: `currentUser` is whatever `user` holds, so a
    well-formed storage starts in step with memory.
   */
  function Init(storage: Storage): (s: Session)
    ensures s.storage == storage
    ensures s.currentUser.Some? <==> UserKey in storage && storage[UserKey].UserRecord?
    ensures s.currentUser.Some? ==> s.currentUser.value == storage[UserKey].user
    ensures WellFormed(storage) ==> InSync(s)
  {
    Session(storage, StoredUser(storage))
  }

  /**
    `setToken(t)`: write `jwtToken`; when a `user` record exists, replace only
    its token, write it back and make it the current user. Without one,
    `user` and `currentUser` are left as they were. Memory stays in step
    with storage, the two stored tokens agree afterwards whatever storage
    held before, and other keys are untouched.
   */
  function WithToken(s: Session, t: string): (r: Session)
    ensures TokenKey in r.storage && r.storage[TokenKey] == Text(t)
    ensures StoredUser(s.storage).Some? ==>
      && r.currentUser == Some(StoredUser(s.storage).value.(token := t))
      && StoredUser(r.storage) == r.currentUser
    ensures StoredUser(s.storage).None? ==>
      && r.currentUser == s.currentUser
      && (UserKey in r.storage <==> UserKey in s.storage)
      && (UserKey in s.storage ==> r.storage[UserKey] == s.storage[UserKey])
    ensures InSync(s) ==> InSync(r)
    ensures TokensAgree(r)
    ensures OthersUnchanged(s.storage, r.storage)
  {
    var storage := s.storage[TokenKey := Text(t)];
    assert StoredUser(storage) == StoredUser(s.storage);
    match StoredUser(storage)
    case Some(u) =>
      var parsed := u.(token := t);
      assert StoredUser(storage[UserKey := UserRecord(parsed)]) == Some(parsed);
      Session(storage[UserKey := UserRecord(parsed)], Some(parsed))
    case None =>
      Session(storage, s.currentUser)
  }

  /**
    `clearToken()` and `onClearAll()`: both keys removed and no current
    user, so `token` is null; other keys are untouched.
   */
  function Cleared(s: Session): (r: Session)
    ensures UserKey !in r.storage && TokenKey !in r.storage
    ensures r.currentUser.None? && TokenOf(r).None?
    ensures InSync(r) && TokensAgree(r)
    ensures OthersUnchanged(s.storage, r.storage)
  {
    Session(s.storage - {TokenKey, UserKey}, None)
  }

  /**
    `setCurrentUser(u)`: `u` becomes current and is stored under both keys,
    so memory and storage agree whatever they held before, and `token`
    exposes `u`'s token (null when it is empty); other keys are untouched.
   */
  function WithUser(s: Session, u: AuthUser): (r: Session)
    ensures r.currentUser == Some(u) && StoredUser(r.storage) == Some(u)
    ensures TokenKey in r.storage && r.storage[TokenKey] == Text(u.token)
    ensures TokenOf(r) == (if u.token == "" then None else Some(u.token))
    ensures InSync(r) && TokensAgree(r)
    ensures OthersUnchanged(s.storage, r.storage)
  {
    Session(s.storage[UserKey := UserRecord(u)][TokenKey := Text(u.token)], Some(u))
  }

  // ---------------------------------------------------------------------
  // Properties of several operations
  // ---------------------------------------------------------------------

  /** Logging out twice is the same as logging out once. */
  lemma ClearTwice(s: Session)
    ensures Cleared(Cleared(s)) == Cleared(s)
  {
  }

  /** Refreshing the token of a freshly stored user is the same as storing the refreshed user. */
  lemma WithTokenAfterWithUser(s: Session, u: AuthUser, t: string)
    ensures WithToken(WithUser(s, u), t) == WithUser(s, u.(token := t))
  {
    var s1 := WithUser(s, u);
    var st := s1.storage[TokenKey := Text(t)];
    assert StoredUser(st) == Some(u);
    var lhs := WithToken(s1, t).storage;
    var rhs := WithUser(s, u.(token := t)).storage;
    assert lhs.Keys == rhs.Keys;
    forall k | k in lhs ensures lhs[k] == rhs[k] {
    }
  }

  /** After logging in with a token-bearing user, `token` is that user's token until a logout. */
  lemma TokenAfterLogin(s: Session, u: AuthUser, t: string)
    requires t != ""
    ensures TokenOf(WithToken(WithUser(s, u), t)) == Some(t)
    ensures TokenOf(Cleared(WithToken(WithUser(s, u), t))) == None
  {
    WithTokenAfterWithUser(s, u, t);
  }

  // ---------------------------------------------------------------------
  // `setCurrentUser` given an updater function
  // ---------------------------------------------------------------------

  /**
    What `setCurrentUser` writes when it is handed a function instead of a
    user, as the profile modal's `setSession((prev) => ...)` does: the
    serialisation of a function and a function's missing `token` property
    both reach storage as the text "undefined". Other keys are untouched.
   */
  function WithUpdaterStored(storage: Storage): (after: Storage)
    ensures UserKey in after && after[UserKey] == Text("undefined")
    ensures TokenKey in after && after[TokenKey] == Text("undefined")
    ensures OthersUnchanged(storage, after)
  {
    storage[UserKey := Text("undefined")][TokenKey := Text("undefined")]
  }

  /**
    After such a call the stored `user` is no record, so the next load
    cannot parse it, and whatever memory holds is out of step with storage.
   */
  lemma UpdaterBreaksSync(storage: Storage, memory: Option<AuthUser>)
    ensures !WellFormed(WithUpdaterStored(storage))
    ensures StoredUser(WithUpdaterStored(storage)).None?
    ensures !InSync(Session(WithUpdaterStored(storage), memory))
  {
  }

  // ---------------------------------------------------------------------
  // The hook's state, updated in place
  // ---------------------------------------------------------------------

  class TokenStore {
    var storage: Storage
    var currentUser: Option<AuthUser>

    function State(): Session
      reads this
    {
      Session(storage, currentUser)
    }

    ghost predicate Valid()
      reads this
    {
      InSync(State())
    }

    /** The hook's first render: `currentUser` is read from storage. */
    constructor (persisted: Storage)
      requires WellFormed(persisted)
      ensures State() == Init(persisted)
      ensures Valid()
    {
      storage := persisted;
      currentUser := StoredUser(persisted);
    }

    method SetToken(newToken: string)
      modifies this
      ensures State() == WithToken(old(State()), newToken)
      ensures old(Valid()) ==> Valid()
      ensures TokensAgree(State())
    {
      storage := storage[TokenKey := Text(newToken)];
      var stored := StoredUser(storage);
      if stored.Some? {
        var parsed := stored.value.(token := newToken);
        storage := storage[UserKey := UserRecord(parsed)];
        currentUser := Some(parsed);
      }
    }

    method ClearToken()
      modifies this
      ensures State() == Cleared(old(State()))
      ensures Valid() && TokensAgree(State())
    {
      storage := storage - {TokenKey};
      storage := storage - {UserKey};
      currentUser := None;
      assert storage == old(storage) - {TokenKey, UserKey};
    }

    method SetCurrentUser(user: AuthUser)
      modifies this
      ensures State() == WithUser(old(State()), user)
      ensures Valid() && TokensAgree(State())
    {
      currentUser := Some(user);
      storage := storage[UserKey := UserRecord(user)];
      storage := storage[TokenKey := Text(user.token)];
    }

    method OnClearAll()
      modifies this
      ensures State() == Cleared(old(State()))
      ensures Valid() && TokensAgree(State())
    {
      currentUser := None;
      storage := storage - {UserKey};
      storage := storage - {TokenKey};
      assert storage == old(storage) - {TokenKey, UserKey};
    }

    /** The `token` field the hook returns. */
    function Token(): (t: Option<string>)
      reads this
      ensures t.Some? ==> currentUser.Some? && t.value == currentUser.value.token && t.value != ""
      ensures t.None? ==> currentUser.None? || currentUser.value.token == ""
    {
      TokenOf(State())
    }
  }
}
