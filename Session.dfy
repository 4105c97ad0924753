/**
 * The session manager of the component as transitions of the string-keyed store that stands
 * for `localStorage`: signup, login, logout, profile-name update, the startup restore, and the
 * effects that persist the task list and its filter.
 */
module Session {
  import opened Wrappers
  import opened Text
  import opened Todos
  import opened Codec

  /** `localStorage`: string keys to string values. */
  type Store = map<string, string>

  const AuthKey: string := "auth"
  const UserKey: string := "user"
  const LastLoginKey: string := "lastLogin"
  const ThemeKey: string := "theme"
  const TodosKey: string := "react_todos_single_app"
  const TodoFilterKey: string := "react_todo_filter_single_app"

  /** `localStorage.getItem(key)`: `None` stands for `null`. */
  function Get(store: Store, key: string): Option<string> {
    if key in store then Some(store[key]) else None
  }

  /** `localStorage.getItem(key)` used as a JavaScript condition: present and not empty. */
  predicate IsSet(store: Store, key: string) {
    key in store && store[key] != ""
  }

  /** An optional string field used as a JavaScript condition: present and not empty. */
  predicate Truthy(o: Option<string>) {
    o.Some? && o.value != ""
  }

  /** The messages the handlers report; `handleAuth` shows them, the profile editor toasts them. */
  datatype AuthError =
    | FieldsMandatory         // "All fields are mandatory for signup."
    | InvalidEmailFormat      // "Invalid email format."
    | PasswordTooShort        // "Password needs to be 8+ characters."
    | EmailAlreadyRegistered  // "This email is already registered. Please login."
    | CredentialsRequired     // "Email and password are required."
    | InvalidCredentials      // "Login failed: Invalid email or password."
    | UnreadableUserRecord    // what JSON.parse or a property read of null throws
    | NameEmpty               // "Name cannot be empty."
    | NoCurrentUser           // "Profile update failed."

  /** A handler's effect: the store afterwards and what the handler reports. */
  datatype Step<T> = Step(store: Store, result: Outcome<T, AuthError>)

  /** The object stored under `"user"`, when that key holds text that parses to an object. */
  function StoredUser(store: Store): Option<UserFields> {
    if IsSet(store, UserKey) then
      match DecodeUser(store[UserKey])
      case Some(Obj(u)) => Some(u)
      case _ => None
    else None
  }

  // ---------------------------------------------------------------------------------------
  // Signup (src/authapp.js:140-155)
  // ---------------------------------------------------------------------------------------

  /** The three input checks of signup, all passed. */
  predicate SignupInputValid(name: string, email: string, password: string) {
    !IsBlank(name) && !IsBlank(email) && !IsBlank(password)
    && MatchesEmailPattern(email) && |password| >= 8
  }

  /** The single user slot admits a signup for `email`: empty, or holding another address. */
  predicate SlotAdmits(store: Store, email: string) {
    !IsSet(store, UserKey) || (StoredUser(store).Some? && StoredUser(store).value.email != Some(email))
  }

  /** The record signup writes: the inputs as typed, stamped with today's date. */
  function NewUser(name: string, email: string, password: string, today: string): UserFields {
    UserFields(Some(name), Some(email), Some(password), Some(today))
  }

  /**
   * Signup: blank fields, then the e-mail pattern, then the untrimmed password length, then the
   * single stored user. A failure writes nothing; a success overwrites `"user"` only, and does
   * not sign the user in.
   */
  function Signup(store: Store, name: string, email: string, password: string, today: string): (r: Step<UserFields>)
    ensures r.result.Success? <==> SignupInputValid(name, email, password) && SlotAdmits(store, email)
    ensures r.result.Failure? ==> r.store == store
    ensures r.result.Success? ==>
              r.result.value == NewUser(name, email, password, today)
              && r.store == store[UserKey := EncodeUser(Obj(r.result.value))]
  {
    if IsBlank(name) || IsBlank(email) || IsBlank(password) then Step(store, Failure(FieldsMandatory))
    else if !MatchesEmailPattern(email) then Step(store, Failure(InvalidEmailFormat))
    else if |password| < 8 then Step(store, Failure(PasswordTooShort))
    else if IsSet(store, UserKey) && StoredUser(store).None? then
      // JSON.parse throws, or the text is "null" and reading `.email` of null throws
      Step(store, Failure(UnreadableUserRecord))
    else if StoredUser(store).Some? && StoredUser(store).value.email == Some(email) then
      Step(store, Failure(EmailAlreadyRegistered))
    else
      var u := NewUser(name, email, password, today);
      Step(store[UserKey := EncodeUser(Obj(u))], Success(u))
  }

  /** Signup once the inputs pass: the stored object decides. */
  lemma SignupWithValidInput(store: Store, name: string, email: string, password: string, today: string)
    requires SignupInputValid(name, email, password)
    ensures Signup(store, name, email, password, today) ==
            if IsSet(store, UserKey) && StoredUser(store).None? then Step(store, Failure(UnreadableUserRecord))
            else if StoredUser(store).Some? && StoredUser(store).value.email == Some(email) then
              Step(store, Failure(EmailAlreadyRegistered))
            else
              var u := NewUser(name, email, password, today);
              Step(store[UserKey := EncodeUser(Obj(u))], Success(u))
  {
  }

  /** Which error signup reports: the first check that fails, in the source's order. */
  lemma SignupChecksInOrder(store: Store, name: string, email: string, password: string, today: string)
    ensures var e := Signup(store, name, email, password, today).result;
            (e == Failure(FieldsMandatory) <==> IsBlank(name) || IsBlank(email) || IsBlank(password))
            && (e == Failure(InvalidEmailFormat) <==>
                  !IsBlank(name) && !IsBlank(email) && !IsBlank(password) && !MatchesEmailPattern(email))
            && (e == Failure(PasswordTooShort) <==>
                  !IsBlank(name) && !IsBlank(email) && !IsBlank(password) && MatchesEmailPattern(email)
                  && |password| < 8)
            && (e == Failure(EmailAlreadyRegistered) <==>
                  SignupInputValid(name, email, password)
                  && StoredUser(store).Some? && StoredUser(store).value.email == Some(email))
            && (e == Failure(UnreadableUserRecord) <==>
                  SignupInputValid(name, email, password) && IsSet(store, UserKey) && StoredUser(store).None?)
  {
    if IsBlank(name) || IsBlank(email) || IsBlank(password) {
    } else if !MatchesEmailPattern(email) {
    } else if |password| < 8 {
    } else if IsSet(store, UserKey) && StoredUser(store).None? {
    } else {
      assert SignupInputValid(name, email, password);
    }
  }

  // ---------------------------------------------------------------------------------------
  // Login (src/authapp.js:157-178)
  // ---------------------------------------------------------------------------------------

  /** A missing or empty `signupDate` is filled in with today's date. */
  function BackfillDate(u: UserFields, today: string): UserFields {
    if Truthy(u.signupDate) then u else u.(signupDate := Some(today))
  }

  /** The credentials match the stored object exactly (no trimming, no case folding). */
  predicate CredentialsMatch(store: Store, email: string, password: string) {
    StoredUser(store).Some? && StoredUser(store).value.email == Some(email)
    && StoredUser(store).value.password == Some(password)
  }

  /**
   * The store once login has written back a missing `signupDate`: `"user"` then holds the
   * back-filled object, and every other key is as it was.
   */
  function BackfilledStore(store: Store, today: string): (r: Store)
    requires StoredUser(store).Some?
    ensures UserKey in r && DecodeUser(r[UserKey]) == Some(Obj(BackfillDate(StoredUser(store).value, today)))
    ensures Truthy(StoredUser(store).value.signupDate) ==> r == store
    ensures !Truthy(StoredUser(store).value.signupDate) ==>
              r[UserKey] == EncodeUser(Obj(BackfillDate(StoredUser(store).value, today)))
    ensures forall k :: k != UserKey ==> Get(r, k) == Get(store, k)
  {
    var u := BackfillDate(StoredUser(store).value, today);
    UserRoundTrip(Obj(u));
    if Truthy(StoredUser(store).value.signupDate) then store else store[UserKey := EncodeUser(Obj(u))]
  }

  /**
   * Login: succeeds exactly when both inputs are non-blank and the stored object carries this
   * e-mail and password. A missing `signupDate` is written back before the credentials are
   * compared, so even a failed login may rewrite `"user"`; only a success sets `"auth"` and
   * `"lastLogin"`.
   */
  function Login(store: Store, email: string, password: string, today: string, stamp: string): (r: Step<UserFields>)
    ensures r.result.Success? <==> !IsBlank(email) && !IsBlank(password) && CredentialsMatch(store, email, password)
    ensures r.result.Success? ==>
              r.result.value == BackfillDate(StoredUser(store).value, today)
              && r.store == BackfilledStore(store, today)[AuthKey := "true"][LastLoginKey := stamp]
    ensures r.result.Failure? && !IsBlank(email) && !IsBlank(password) && StoredUser(store).Some? ==>
              r.store == BackfilledStore(store, today)
    ensures IsBlank(email) || IsBlank(password) || StoredUser(store).None? ==> r.store == store
  {
    if IsBlank(email) || IsBlank(password) then Step(store, Failure(CredentialsRequired))
    else if IsSet(store, UserKey) && DecodeUser(store[UserKey]).None? then
      Step(store, Failure(UnreadableUserRecord))
    else if StoredUser(store).None? then
      // no stored text, or the text "null": nothing to compare with
      Step(store, Failure(InvalidCredentials))
    else
      var u := BackfillDate(StoredUser(store).value, today);
      var written := BackfilledStore(store, today);
      if u.email == Some(email) && u.password == Some(password) then
        Step(written[AuthKey := "true"][LastLoginKey := stamp], Success(u))
      else
        Step(written, Failure(InvalidCredentials))
  }

  /** Login once both inputs are non-blank and an object is stored: back-fill, then compare. */
  lemma LoginWithStored(store: Store, stored: UserFields, email: string, password: string, today: string, stamp: string)
    requires !IsBlank(email) && !IsBlank(password) && StoredUser(store) == Some(stored)
    ensures Login(store, email, password, today, stamp) ==
            if stored.email == Some(email) && stored.password == Some(password) then
              Step(BackfilledStore(store, today)[AuthKey := "true"][LastLoginKey := stamp],
                   Success(BackfillDate(stored, today)))
            else Step(BackfilledStore(store, today), Failure(InvalidCredentials))
  {
  }

  /**
   * What login does to the store, key by key: a success sets `"auth"` to `"true"`, stamps
   * `"lastLogin"` and leaves `"user"` holding the signed-in object; a failure leaves both
   * session keys as they were; no other key ever changes.
   */
  lemma LoginEffects(store: Store, email: string, password: string, today: string, stamp: string)
    ensures var r := Login(store, email, password, today, stamp);
            r.result.Success? ==>
              Get(r.store, AuthKey) == Some("true") && Get(r.store, LastLoginKey) == Some(stamp)
              && UserKey in r.store && DecodeUser(r.store[UserKey]) == Some(Obj(r.result.value))
    ensures var r := Login(store, email, password, today, stamp);
            r.result.Failure? ==>
              Get(r.store, AuthKey) == Get(store, AuthKey) && Get(r.store, LastLoginKey) == Get(store, LastLoginKey)
    ensures var r := Login(store, email, password, today, stamp);
            forall k :: k != AuthKey && k != LastLoginKey && k != UserKey ==> Get(r.store, k) == Get(store, k)
  {
    KeysDistinct();
    var r := Login(store, email, password, today, stamp);
    if !IsBlank(email) && !IsBlank(password) && StoredUser(store).Some? {
      var w := BackfilledStore(store, today);
      LoginWithStored(store, StoredUser(store).value, email, password, today, stamp);
      if r.result.Success? {
        assert r.store == w[AuthKey := "true"][LastLoginKey := stamp];
        assert r.store[UserKey] == w[UserKey];
      } else {
        assert r.store == w;
      }
    } else {
      assert r.store == store;
    }
  }

  /**
   * Which error login reports: blank inputs first, then a stored text that does not parse,
   * and otherwise (nothing stored, or credentials that do not match) the credentials error.
   */
  lemma LoginChecksInOrder(store: Store, email: string, password: string, today: string, stamp: string)
    ensures var e := Login(store, email, password, today, stamp).result;
            (e == Failure(CredentialsRequired) <==> IsBlank(email) || IsBlank(password))
            && (e == Failure(UnreadableUserRecord) <==>
                  !IsBlank(email) && !IsBlank(password) && IsSet(store, UserKey) && DecodeUser(store[UserKey]).None?)
            && (e == Failure(InvalidCredentials) <==>
                  !IsBlank(email) && !IsBlank(password) && !(IsSet(store, UserKey) && DecodeUser(store[UserKey]).None?)
                  && !CredentialsMatch(store, email, password))
  {
    if !IsBlank(email) && !IsBlank(password) && StoredUser(store).Some? {
      LoginWithStored(store, StoredUser(store).value, email, password, today, stamp);
    }
  }

  // ---------------------------------------------------------------------------------------
  // Logout (src/authapp.js:190-192) and profile-name update (src/authapp.js:204-221)
  // ---------------------------------------------------------------------------------------

  /** Logout removes the session keys and nothing else; the user record stays for later logins. */
  function Logout(store: Store): (r: Store)
    ensures r.Keys == store.Keys - {AuthKey, LastLoginKey}
    ensures forall k :: k in r ==> r[k] == store[k]
  {
    store - {AuthKey, LastLoginKey}
  }

  /**
   * The profile-name update: a name that trims to nothing is refused; with no current user the
   * update fails; otherwise only `name` changes, to the text as typed, and the record is written
   * back to `"user"`.
   */
  function UpdateProfileName(store: Store, current: Option<UserFields>, newName: string): (r: Step<UserFields>)
    ensures r.result.Success? <==> !IsBlank(newName) && current.Some?
    ensures r.result.Failure? ==> r.store == store
    ensures r.result.Success? ==>
              r.result.value.name == Some(newName)
              && r.result.value.(name := current.value.name) == current.value
              && r.store == store[UserKey := EncodeUser(Obj(r.result.value))]
  {
    if IsBlank(newName) then Step(store, Failure(NameEmpty))
    else if current.None? then Step(store, Failure(NoCurrentUser))
    else
      var u := current.value.(name := Some(newName));
      Step(store[UserKey := EncodeUser(Obj(u))], Success(u))
  }

  /** Which error the profile update reports: an empty name first, then no signed-in user. */
  lemma UpdateChecksInOrder(store: Store, current: Option<UserFields>, newName: string)
    ensures var e := UpdateProfileName(store, current, newName).result;
            (e == Failure(NameEmpty) <==> IsBlank(newName))
            && (e == Failure(NoCurrentUser) <==> !IsBlank(newName) && current.None?)
  {
  }

  // ---------------------------------------------------------------------------------------
  // Startup restore (src/authapp.js:63-85)
  // ---------------------------------------------------------------------------------------

  /** What the restore step leaves: the store, and the user whose session it resumed, if any. */
  datatype Restored = Restored(store: Store, user: Option<UserFields>)

  /** The stored object restores a session: it parses to an object whose `email` is set. */
  predicate Restorable(text: string) {
    DecodeUser(text).Some? && DecodeUser(text).value.Obj? && Truthy(DecodeUser(text).value.fields.email)
  }

  /**
   * The deferred restore, given the `"auth"` flag and the `"user"` text read at mount time.
   * With both present it either resumes the session (back-filling `signupDate`) or, when the
   * text does not parse or has no e-mail, removes `"auth"` and `"user"`; otherwise it leaves the
   * store alone.
   */
  function Restore(store: Store, authStatus: bool, storedUser: Option<string>, today: string): (r: Restored)
    ensures r.user.Some? <==> authStatus && Truthy(storedUser) && Restorable(storedUser.value)
    ensures r.user.Some? ==>
              r.user.value == BackfillDate(DecodeUser(storedUser.value).value.fields, today)
              && Truthy(r.user.value.email)
    ensures r.user.Some? && Truthy(DecodeUser(storedUser.value).value.fields.signupDate) ==> r.store == store
    ensures r.user.Some? && !Truthy(DecodeUser(storedUser.value).value.fields.signupDate) ==>
              r.store == store[UserKey := EncodeUser(Obj(r.user.value))]
    ensures authStatus && Truthy(storedUser) && !Restorable(storedUser.value) ==>
              r.store == store - {AuthKey, UserKey}
    ensures !(authStatus && Truthy(storedUser)) ==> r.store == store && r.user.None?
  {
    if authStatus && Truthy(storedUser) then
      match DecodeUser(storedUser.value)
      case Some(Obj(u)) =>
        if Truthy(u.email) then
          if Truthy(u.signupDate) then Restored(store, Some(u))
          else
            var u' := BackfillDate(u, today);
            Restored(store[UserKey := EncodeUser(Obj(u'))], Some(u'))
        else Restored(store - {AuthKey, UserKey}, None)
      case _ => Restored(store - {AuthKey, UserKey}, None)
    else Restored(store, None)
  }

  /**
   * Given the values the store held at mount, a restore that resumes a user leaves a signed-in
   * store: `"auth"` is `"true"` and `"user"` reads back as exactly the resumed user.
   */
  lemma RestoreEstablishesSession(store: Store, authStatus: bool, storedUser: Option<string>, today: string)
    requires authStatus == (Get(store, AuthKey) == Some("true")) && storedUser == Get(store, UserKey)
    ensures var r := Restore(store, authStatus, storedUser, today);
            r.user.Some? ==>
              Get(r.store, AuthKey) == Some("true")
              && UserKey in r.store && DecodeUser(r.store[UserKey]) == Some(Obj(r.user.value))
  {
    var r := Restore(store, authStatus, storedUser, today);
    if r.user.Some? {
      KeysDistinct();
      UserRoundTrip(Obj(r.user.value));
    }
  }

  /** The restore as it runs at startup, on the values of `"auth"` and `"user"` in the store. */
  function StartupRestore(store: Store, today: string): Restored {
    Restore(store, Get(store, AuthKey) == Some("true"), Get(store, UserKey), today)
  }

  // ---------------------------------------------------------------------------------------
  // The mount-time reads and the persistence effects (src/authapp.js:50-61, 94-102)
  // ---------------------------------------------------------------------------------------

  /** `localStorage.getItem("theme") || 'light'`. */
  function MountedTheme(store: Store): string {
    if IsSet(store, ThemeKey) then store[ThemeKey] else "light"
  }

  /** The stored filter, or `'all'`. */
  function MountedFilter(store: Store): string {
    if IsSet(store, TodoFilterKey) then store[TodoFilterKey] else "all"
  }

  /** The stored task list; a text that does not parse gives the empty list. */
  function MountedTodos(store: Store): seq<Todo> {
    if IsSet(store, TodosKey) then
      match DecodeTodos(store[TodosKey])
      case Some(ts) => ts
      case None => []
    else []
  }

  /**
   * The task-persistence effect: once loading is over it writes the list whenever the list is
   * non-empty or a list was stored before (so an emptied list overwrites the old one).
   */
  function PersistTodos(store: Store, todos: seq<Todo>, appLoading: bool): (r: Store)
    ensures !appLoading && (|todos| > 0 || IsSet(store, TodosKey)) ==>
              TodosKey in r && DecodeTodos(r[TodosKey]) == Some(todos)
    ensures forall k :: k != TodosKey ==> Get(r, k) == Get(store, k)
    ensures appLoading || (|todos| == 0 && !IsSet(store, TodosKey)) ==> r == store
  {
    if !appLoading && (|todos| > 0 || IsSet(store, TodosKey)) then
      TodosRoundTrip(todos);
      store[TodosKey := EncodeTodos(todos)]
    else store
  }

  /**
   * The stored task list is the list on screen: either both are empty (no list stored), or the
   * text under the task key reads back as exactly that list.
   */
  predicate Saved(store: Store, todos: seq<Todo>) {
    (todos == [] && !IsSet(store, TodosKey))
    || (TodosKey in store && DecodeTodos(store[TodosKey]) == Some(todos))
  }

  /** Once loading is over, the persistence effect leaves the list saved. */
  lemma PersistSaves(store: Store, todos: seq<Todo>)
    ensures Saved(PersistTodos(store, todos, false), todos)
  {
  }

  /** Whether a list is saved depends on the task key alone. */
  lemma SavedFrame(store: Store, store': Store, todos: seq<Todo>)
    requires Saved(store, todos) && Get(store', TodosKey) == Get(store, TodosKey)
    ensures Saved(store', todos)
  {
  }

  /** A saved list is what the next mount reads back. */
  lemma SavedReloads(store: Store, todos: seq<Todo>)
    requires Saved(store, todos)
    ensures MountedTodos(store) == todos
  {
    if TodosKey in store && DecodeTodos(store[TodosKey]) == Some(todos) {
      assert DecodeTodos("") == None;
    }
  }

  // ---------------------------------------------------------------------------------------
  // Properties across handlers
  // ---------------------------------------------------------------------------------------

  /** The keys of the store are distinct strings. */
  lemma KeysDistinct()
    ensures AuthKey != UserKey && AuthKey != LastLoginKey && UserKey != LastLoginKey
    ensures ThemeKey != AuthKey && ThemeKey != UserKey && ThemeKey != LastLoginKey
    ensures TodosKey != AuthKey && TodosKey != UserKey && TodosKey != LastLoginKey && TodosKey != ThemeKey
    ensures TodoFilterKey != AuthKey && TodoFilterKey != UserKey && TodoFilterKey != LastLoginKey
    ensures TodoFilterKey != ThemeKey && TodoFilterKey != TodosKey
  {
    assert AuthKey[0] != UserKey[0] && AuthKey[0] != LastLoginKey[0] && UserKey[0] != LastLoginKey[0];
    assert ThemeKey[0] != AuthKey[0] && ThemeKey[0] != UserKey[0] && ThemeKey[0] != LastLoginKey[0];
    assert TodosKey[0] != AuthKey[0] && TodosKey[0] != UserKey[0] && TodosKey[0] != LastLoginKey[0];
    assert TodosKey[0] != ThemeKey[0];
    assert TodoFilterKey[0] != AuthKey[0] && TodoFilterKey[0] != UserKey[0];
    assert TodoFilterKey[0] != LastLoginKey[0] && TodoFilterKey[0] != ThemeKey[0];
    assert |TodoFilterKey| != |TodosKey|;
  }

  /** A successful signup followed by a login with the same e-mail and password succeeds. */
  lemma SignupThenLogin(store: Store, name: string, email: string, password: string,
                        today: string, later: string, stamp: string)
    requires Signup(store, name, email, password, today).result.Success?
    ensures var l := Login(Signup(store, name, email, password, today).store, email, password, later, stamp);
            l.result.Success? && l.result.value.name == Some(name) && l.result.value.email == Some(email)
            && l.store[AuthKey] == "true"
  {
    var s := Signup(store, name, email, password, today).store;
    UserRoundTrip(Obj(NewUser(name, email, password, today)));
    assert s[UserKey] != "" by {
      assert EncodeUser(Obj(NewUser(name, email, password, today)))[0] == '{';
    }
    assert StoredUser(s) == Some(NewUser(name, email, password, today));
  }

  /** Signing up again with the stored e-mail is refused, whatever the name and password. */
  lemma SignupRejectsRegisteredEmail(store: Store, name: string, email: string, password: string, today: string)
    requires SignupInputValid(name, email, password)
    requires StoredUser(store).Some? && StoredUser(store).value.email == Some(email)
    ensures Signup(store, name, email, password, today) == Step(store, Failure(EmailAlreadyRegistered))
  {
  }

  /**
   * After a signup, a login with the right e-mail and another password fails and leaves the
   * session flag as it was.
   */
  lemma WrongPasswordStaysSignedOut(store: Store, name: string, email: string, password: string,
                                    wrong: string, today: string, later: string, stamp: string)
    requires Signup(store, name, email, password, today).result.Success?
    requires wrong != password
    ensures var s := Signup(store, name, email, password, today).store;
            var l := Login(s, email, wrong, later, stamp);
            l.result == Failure(if IsBlank(wrong) then CredentialsRequired else InvalidCredentials)
            && Get(l.store, AuthKey) == Get(store, AuthKey)
  {
    var s := Signup(store, name, email, password, today).store;
    LoginChecksInOrder(s, email, wrong, later, stamp);
    UserRoundTrip(Obj(NewUser(name, email, password, today)));
    KeysDistinct();
    assert StoredUser(s) == Some(NewUser(name, email, password, today)) by {
      assert s[UserKey] != "" by {
        assert EncodeUser(Obj(NewUser(name, email, password, today)))[0] == '{';
      }
    }
    assert Get(s, AuthKey) == Get(store, AuthKey);
  }

  /** A store holding the session flag and a user with an e-mail restores that user. */
  lemma RestoreOfSignedIn(store: Store, u: UserFields, today: string)
    requires Get(store, AuthKey) == Some("true")
    requires UserKey in store && DecodeUser(store[UserKey]) == Some(Obj(u)) && Truthy(u.email)
    ensures StartupRestore(store, today).user == Some(BackfillDate(u, today))
  {
    assert DecodeUser("") == None;
    assert Restorable(store[UserKey]);
  }

  /** A session opened by login survives a reload: the startup restore resumes the same user. */
  lemma LoginSurvivesReload(store: Store, email: string, password: string, today: string,
                            stamp: string, later: string)
    requires Login(store, email, password, today, stamp).result.Success?
    ensures var l := Login(store, email, password, today, stamp);
            StartupRestore(l.store, later).user == Some(BackfillDate(l.result.value, later))
  {
    var l := Login(store, email, password, today, stamp);
    LoginEffects(store, email, password, today, stamp);
    assert l.result.value.email == Some(email) && email != "" by {
      BlankIffAllSpace(email);
    }
    RestoreOfSignedIn(l.store, l.result.value, later);
  }

  /** After logout the startup restore resumes nothing and leaves the store as it is. */
  lemma LogoutSurvivesReload(store: Store, today: string)
    ensures StartupRestore(Logout(store), today) == Restored(Logout(store), None)
  {
  }

  /** A renamed user is what the next startup restores, with the new name. */
  lemma RenameSurvivesReload(store: Store, current: Option<UserFields>, newName: string, today: string)
    requires UpdateProfileName(store, current, newName).result.Success?
    requires Get(store, AuthKey) == Some("true")
    requires Truthy(current.value.email) && Truthy(current.value.signupDate)
    ensures var r := UpdateProfileName(store, current, newName);
            StartupRestore(r.store, today) == Restored(r.store, Some(r.result.value))
  {
    var r := UpdateProfileName(store, current, newName);
    KeysDistinct();
    UserRoundTrip(Obj(r.result.value));
    assert r.store[UserKey] != "" by {
      assert EncodeUser(Obj(r.result.value))[0] == '{';
    }
  }

  /** A persisted task list is what the next mount reads back. */
  lemma PersistedTodosSurviveReload(store: Store, todos: seq<Todo>)
    requires |todos| > 0 || IsSet(store, TodosKey)
    ensures MountedTodos(PersistTodos(store, todos, false)) == todos
  {
    var r := PersistTodos(store, todos, false);
    assert r[TodosKey] == EncodeTodos(todos);
    assert EncodeTodos(todos)[0] == '[';
  }

  /**
   * A session flag left without a user record (the startup restore keeps `"auth"` when
   * `"user"` is missing) lets the next signup's user in on the following reload, with no login.
   */
  lemma StaleFlagResumesSignup(store: Store, name: string, email: string, password: string,
                               today: string, later: string)
    requires Get(store, AuthKey) == Some("true")
    requires Signup(store, name, email, password, today).result.Success?
    ensures var s := Signup(store, name, email, password, today).store;
            StartupRestore(s, later).user == Some(BackfillDate(NewUser(name, email, password, today), later))
  {
    var u := NewUser(name, email, password, today);
    var s := Signup(store, name, email, password, today).store;
    KeysDistinct();
    UserRoundTrip(Obj(u));
    assert email != "" by {
      BlankIffAllSpace(email);
    }
    RestoreOfSignedIn(s, u, later);
  }

  /** A theme written by the theme handler is what the next mount shows; an empty one reads as `'light'`. */
  lemma ThemeSurvivesReload(store: Store, theme: string)
    ensures MountedTheme(store[ThemeKey := theme]) == if theme == "" then "light" else theme
  {
  }

  /** A filter written by the filter effect is what the next mount shows; an empty one reads as `'all'`. */
  lemma FilterSurvivesReload(store: Store, filter: string)
    ensures MountedFilter(store[TodoFilterKey := filter]) == if filter == "" then "all" else filter
  {
  }

  /**
   * A reload between the two delete phases drops the removal timer, but the list was already
   * stored with the record flagged: the next mount shows the flagged record in the list, and no
   * view ever shows a record with that id.
   */
  lemma FlaggedSurvivesReload(store: Store, todos: seq<Todo>, id: nat, i: int, filter: string, search: string)
    requires Saved(store, MarkForDeletion(todos, id))
    requires 0 <= i < |todos| && todos[i].id == id
    ensures MountedTodos(store)[i] == todos[i].(deleting := true)
    ensures forall t :: t in FilteredTodos(MountedTodos(store), filter, search) ==> t.id != id
  {
    SavedReloads(store, MarkForDeletion(todos, id));
    MarkedHiddenButKept(todos, id, filter, search, i);
  }
}
