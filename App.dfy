/**
 * The `AuthApp` component as an object: its state hooks are fields, its handlers and timer
 * callbacks are methods, and `localStorage` is a separate object the methods write through.
 * `Mount` establishes the component's invariant `Valid` and every handler and timer method keeps
 * it; the helper steps `ResumeSession`, `SaveTodos` and `ReadStoredUser` do not state it. The
 * handlers that sign in, sign up, sign out, rename, restore or change the task list are proved
 * against the store transition or list updater that specifies them; the theme and filter
 * handlers and the `LocalStorage` methods state their map update directly.
 */
module App {
  import opened Wrappers
  import opened Text
  import opened Todos
  import opened Codec
  import opened Session

  /** The browser's `localStorage`: a string-keyed map updated in place. */
  class LocalStorage {
    var items: Store

    constructor (initial: Store)
      ensures items == initial
    {
      items := initial;
    }

    /** `getItem(key)`: the stored text, or `None` for `null`. */
    method GetItem(key: string) returns (r: Option<string>)
      ensures r.Some? <==> key in items
      ensures r.Some? ==> r.value == items[key]
    {
      if key in items {
        r := Some(items[key]);
      } else {
        r := None;
      }
    }

    /** `setItem(key, value)`. */
    method SetItem(key: string, value: string)
      modifies this
      ensures items == old(items)[key := value]
    {
      items := items[key := value];
    }

    /** `removeItem(key)`. */
    method RemoveItem(key: string)
      modifies this
      ensures items == old(items) - {key}
    {
      items := items - {key};
    }
  }

  class AuthApp {
    const storage: LocalStorage

    var isAuthenticated: bool
    var currentUser: Option<UserFields>
    var theme: string
    var todos: seq<Todo>
    var todoFilter: string
    /** The loading screen is up: at startup until the restore timer fires, and after logout. */
    var appLoading: bool
    /** The 1200 ms startup timer has not fired yet. */
    var restorePending: bool
    /** What the startup timer's closure captured at mount: the `"auth"` flag and the `"user"` text. */
    var bootAuth: bool
    var bootUser: Option<string>
    /** The ids whose 300 ms removal timer is still pending. */
    var pendingDeletes: multiset<nat>
    /** The 300 ms timers started by logout that have not fired yet. */
    var loadingTimers: nat

    /**
     * The component's invariant: a user is on screen exactly when signed in, and then the store
     * holds the session flag and the same user; the filter key mirrors the filter; once loading
     * is over the stored task list is the list on screen; and until the startup timer fires the
     * loading screen is up and the captured values are still those of the store.
     */
    predicate Valid()
      reads this, storage
    {
      SessionStored()
      && Get(storage.items, TodoFilterKey) == Some(todoFilter)
      && (!appLoading ==> Saved(storage.items, todos))
      && (restorePending ==>
            appLoading && !isAuthenticated && loadingTimers == 0
            && bootAuth == (Get(storage.items, AuthKey) == Some("true"))
            && bootUser == Get(storage.items, UserKey))
    }

    /**
     * A user is on screen exactly when signed in, and then the user has an e-mail, the store
     * holds the session flag, and `"user"` reads back as that same user.
     */
    predicate SessionStored()
      reads this, storage
    {
      (isAuthenticated <==> currentUser.Some?)
      && (isAuthenticated ==>
            Truthy(currentUser.value.email)
            && Get(storage.items, AuthKey) == Some("true")
            && UserKey in storage.items && DecodeUser(storage.items[UserKey]) == Some(Obj(currentUser.value)))
    }

    /**
     * The first render and the mount effect (src/authapp.js:50-61): theme, filter and task list
     * are read from the store, the `"auth"` and `"user"` values are captured for the startup
     * timer, and the filter effect writes the filter back.
     */
    constructor Mount(store: LocalStorage)
      modifies store
      ensures storage == store && Valid()
      ensures theme == MountedTheme(old(store.items))
      ensures todoFilter == MountedFilter(old(store.items))
      ensures todos == MountedTodos(old(store.items))
      ensures !isAuthenticated && appLoading && restorePending
      ensures pendingDeletes == multiset{} && loadingTimers == 0
      ensures bootAuth == (Get(old(store.items), AuthKey) == Some("true")) && bootUser == Get(old(store.items), UserKey)
      ensures store.items == old(store.items)[TodoFilterKey := MountedFilter(old(store.items))]
    {
      storage := store;
      isAuthenticated := false;
      currentUser := None;
      theme := MountedTheme(store.items);
      todoFilter := MountedFilter(store.items);
      todos := MountedTodos(store.items);
      appLoading := true;
      restorePending := true;
      bootAuth := Get(store.items, AuthKey) == Some("true");
      bootUser := Get(store.items, UserKey);
      pendingDeletes := multiset{};
      loadingTimers := 0;
      new;
      KeysDistinct();
      store.SetItem(TodoFilterKey, todoFilter);
    }

    /** The task-persistence effect (src/authapp.js:94-98), run after every change of the list. */
    method SaveTodos()
      modifies storage
      ensures storage.items == PersistTodos(old(storage.items), todos, appLoading)
    {
      var stored := storage.GetItem(TodosKey);
      if !appLoading && (|todos| > 0 || (stored.Some? && stored.value != "")) {
        storage.SetItem(TodosKey, EncodeTodos(todos));
      }
    }

    /**
     * The startup timer (src/authapp.js:63-85): the captured values resume the session or clear
     * the unreadable one, the loading screen comes down, and the list is persisted.
     */
    method RestoreSession(today: string)
      requires Valid() && restorePending
      modifies this`isAuthenticated, this`currentUser, this`appLoading, this`restorePending, storage
      ensures Valid()
      ensures var r := Restore(old(storage.items), bootAuth, bootUser, today);
              currentUser == r.user && storage.items == PersistTodos(r.store, todos, false)
      ensures !appLoading && !restorePending
    {
      ResumeSession(today);
      appLoading := false;
      restorePending := false;
      ghost var restored := storage.items;
      SaveTodos();
      PersistSaves(restored, todos);
      KeysDistinct();
    }

    /**
     * The body of the startup timer before the loading screen comes down (src/authapp.js:64-81):
     * resume the captured user, back-filling `signupDate`, or remove `"auth"` and `"user"` when
     * the captured text does not parse to an object with an e-mail.
     */
    method ResumeSession(today: string)
      requires Valid() && restorePending
      modifies this`isAuthenticated, this`currentUser, storage
      ensures SessionStored()
      ensures var r := Restore(old(storage.items), bootAuth, bootUser, today);
              currentUser == r.user && storage.items == r.store
      ensures Get(storage.items, TodoFilterKey) == Get(old(storage.items), TodoFilterKey)
      ensures Get(storage.items, TodosKey) == Get(old(storage.items), TodosKey)
    {
      ghost var r := Restore(storage.items, bootAuth, bootUser, today);
      RestoreEstablishesSession(storage.items, bootAuth, bootUser, today);
      KeysDistinct();
      if bootAuth && Truthy(bootUser) {
        var parsed := DecodeUser(bootUser.value);
        if parsed.Some? && parsed.value.Obj? && Truthy(parsed.value.fields.email) {
          var u := parsed.value.fields;
          if !Truthy(u.signupDate) {
            u := u.(signupDate := Some(today));
            storage.SetItem(UserKey, EncodeUser(Obj(u)));
          }
          isAuthenticated := true;
          currentUser := Some(u);
        } else {
          storage.RemoveItem(AuthKey);
          storage.RemoveItem(UserKey);
          assert storage.items == r.store;
        }
      }
    }

    /**
     * `JSON.parse` of the `"user"` text, with a missing or empty text read as `null`
     * (src/authapp.js:158-159): `None` where the parse throws.
     */
    method ReadStoredUser() returns (r: Option<UserValue>)
      ensures r.None? <==> IsSet(storage.items, UserKey) && DecodeUser(storage.items[UserKey]).None?
      ensures r.Some? ==> (r.value.Obj? <==> StoredUser(storage.items).Some?)
      ensures r.Some? && r.value.Obj? ==> StoredUser(storage.items) == Some(r.value.fields)
    {
      var text := storage.GetItem(UserKey);
      if text.Some? && text.value != "" {
        r := DecodeUser(text.value);
      } else {
        r := Some(Null);
      }
    }

    /**
     * Signup as `handleAuth` runs it (src/authapp.js:140-155): the input checks, then
     * `RegisterUser`. The form is on screen only while signed out and after the startup restore.
     */
    method Signup(name: string, email: string, password: string, today: string)
      returns (result: Outcome<UserFields, AuthError>)
      requires Valid() && !isAuthenticated && !restorePending
      modifies storage
      ensures Valid()
      ensures var step := Session.Signup(old(storage.items), name, email, password, today);
              result == step.result && storage.items == step.store
    {
      if IsBlank(name) || IsBlank(email) || IsBlank(password) {
        return Failure(FieldsMandatory);
      }
      if !MatchesEmailPattern(email) {
        return Failure(InvalidEmailFormat);
      }
      if |password| < 8 {
        return Failure(PasswordTooShort);
      }
      SignupWithValidInput(storage.items, name, email, password, today);
      result := RegisterUser(name, email, password, today);
    }

    /**
     * The single-slot check and the write of signup (src/authapp.js:144-151): an unreadable
     * stored object or one with this e-mail refuses the signup; otherwise the new record
     * replaces whatever was stored.
     */
    method RegisterUser(name: string, email: string, password: string, today: string)
      returns (result: Outcome<UserFields, AuthError>)
      requires Valid() && !isAuthenticated && !restorePending
      modifies storage
      ensures Valid()
      ensures IsSet(old(storage.items), UserKey) && StoredUser(old(storage.items)).None? ==>
                result == Failure(UnreadableUserRecord) && storage.items == old(storage.items)
      ensures StoredUser(old(storage.items)).Some? && StoredUser(old(storage.items)).value.email == Some(email) ==>
                result == Failure(EmailAlreadyRegistered) && storage.items == old(storage.items)
      ensures SlotAdmits(old(storage.items), email) ==>
                result == Success(NewUser(name, email, password, today))
                && storage.items == old(storage.items)[UserKey := EncodeUser(Obj(result.value))]
    {
      var existing := storage.GetItem(UserKey);
      if existing.Some? && existing.value != "" {
        var parsed := ReadStoredUser();
        if parsed.None? || parsed.value.Null? {
          return Failure(UnreadableUserRecord);
        }
        if parsed.value.fields.email == Some(email) {
          return Failure(EmailAlreadyRegistered);
        }
      }
      ghost var before := storage.items;
      KeysDistinct();
      var u := NewUser(name, email, password, today);
      storage.SetItem(UserKey, EncodeUser(Obj(u)));
      assert Get(storage.items, TodosKey) == Get(before, TodosKey);
      if !appLoading {
        SavedFrame(before, storage.items, todos);
      }
      return Success(u);
    }

    /**
     * Login as `handleAuth` runs it (src/authapp.js:157-178): blank inputs are refused, the
     * stored object is parsed, and `CheckCredentials` does the rest.
     */
    method Login(email: string, password: string, today: string, stamp: string)
      returns (result: Outcome<UserFields, AuthError>)
      requires Valid() && !isAuthenticated && !restorePending
      modifies this`isAuthenticated, this`currentUser, storage
      ensures Valid()
      ensures var step := Session.Login(old(storage.items), email, password, today, stamp);
              result == step.result && storage.items == step.store
      ensures isAuthenticated == result.Success?
      ensures result.Success? ==> currentUser == Some(result.value)
    {
      if IsBlank(email) || IsBlank(password) {
        return Failure(CredentialsRequired);
      }
      var parsed := ReadStoredUser();
      if parsed.None? {
        return Failure(UnreadableUserRecord);
      }
      if parsed.value.Null? {
        return Failure(InvalidCredentials);
      }
      LoginWithStored(storage.items, parsed.value.fields, email, password, today, stamp);
      var u := BackfillSignupDate(parsed.value.fields, today);
      result := CheckCredentials(u, email, password, stamp);
    }

    /**
     * Login's write-back (src/authapp.js:161-164): a stored object without a `signupDate` gets
     * today's date, on screen and in the store.
     */
    method BackfillSignupDate(stored: UserFields, today: string) returns (u: UserFields)
      requires Valid() && !isAuthenticated && !restorePending && StoredUser(storage.items) == Some(stored)
      modifies storage
      ensures Valid()
      ensures u == BackfillDate(stored, today) && storage.items == BackfilledStore(old(storage.items), today)
      ensures StoredUser(storage.items) == Some(u)
    {
      ghost var before := storage.items;
      KeysDistinct();
      u := stored;
      if !Truthy(u.signupDate) {
        u := u.(signupDate := Some(today));
        storage.SetItem(UserKey, EncodeUser(Obj(u)));
        UserRoundTrip(Obj(u));
        assert storage.items[UserKey] != "" by {
          assert EncodeUser(Obj(u))[0] == '{';
        }
        assert Get(storage.items, TodosKey) == Get(before, TodosKey);
        if !appLoading {
          SavedFrame(before, storage.items, todos);
        }
      }
    }

    /**
     * Login's comparison (src/authapp.js:166-177): matching credentials set the session flag
     * and the login stamp and put the user on screen; anything else fails and changes nothing.
     */
    method CheckCredentials(u: UserFields, email: string, password: string, stamp: string)
      returns (result: Outcome<UserFields, AuthError>)
      requires Valid() && !isAuthenticated && !restorePending
      requires !IsBlank(email) && StoredUser(storage.items) == Some(u)
      modifies this`isAuthenticated, this`currentUser, storage
      ensures Valid()
      ensures var matches := u.email == Some(email) && u.password == Some(password);
              result == (if matches then Success(u) else Failure(InvalidCredentials))
              && storage.items == (if matches then old(storage.items)[AuthKey := "true"][LastLoginKey := stamp]
                                   else old(storage.items))
      ensures isAuthenticated == result.Success?
      ensures result.Success? ==> currentUser == Some(result.value)
    {
      if u.email == Some(email) && u.password == Some(password) {
        ghost var before := storage.items;
        KeysDistinct();
        storage.SetItem(AuthKey, "true");
        storage.SetItem(LastLoginKey, stamp);
        isAuthenticated := true;
        currentUser := Some(u);
        assert storage.items[UserKey] == before[UserKey];
        assert Get(storage.items, TodosKey) == Get(before, TodosKey);
        if !appLoading {
          SavedFrame(before, storage.items, todos);
        }
        BlankIffAllSpace(email);
        return Success(u);
      }
      return Failure(InvalidCredentials);
    }

    /**
     * Logout (src/authapp.js:190-202): the session keys go, the user leaves the screen, and the
     * loading screen comes up until its 300 ms timer fires.
     */
    method Logout()
      requires Valid() && !restorePending
      modifies this`isAuthenticated, this`currentUser, this`appLoading, this`loadingTimers, storage
      ensures Valid()
      ensures storage.items == Session.Logout(old(storage.items))
      ensures !isAuthenticated && currentUser.None? && appLoading
      ensures loadingTimers == old(loadingTimers) + 1
    {
      KeysDistinct();
      storage.RemoveItem(AuthKey);
      storage.RemoveItem(LastLoginKey);
      isAuthenticated := false;
      currentUser := None;
      appLoading := true;
      loadingTimers := loadingTimers + 1;
    }

    /**
     * The 300 ms timer logout starts (src/authapp.js:199-200): the loading screen comes down,
     * and the change of `appLoading` runs the persistence effect.
     */
    method LoadingFinished()
      requires Valid() && loadingTimers > 0
      modifies this`appLoading, this`loadingTimers, storage
      ensures Valid()
      ensures !appLoading && loadingTimers == old(loadingTimers) - 1
      ensures old(appLoading) ==> storage.items == PersistTodos(old(storage.items), todos, false)
      ensures !old(appLoading) ==> storage.items == old(storage.items)
    {
      KeysDistinct();
      loadingTimers := loadingTimers - 1;
      if appLoading {
        appLoading := false;
        SaveTodos();
        PersistSaves(old(storage.items), todos);
      }
    }

    /**
     * The profile-name update (src/authapp.js:204-221): the edited name replaces the current
     * user's name on screen and in the store.
     */
    method UpdateProfileName(newName: string) returns (result: Outcome<UserFields, AuthError>)
      requires Valid()
      modifies this`currentUser, storage
      ensures Valid()
      ensures var step := Session.UpdateProfileName(old(storage.items), old(currentUser), newName);
              result == step.result && storage.items == step.store
      ensures result.Success? ==> currentUser == Some(result.value)
      ensures result.Failure? ==> currentUser == old(currentUser)
    {
      KeysDistinct();
      if IsBlank(newName) {
        return Failure(NameEmpty);
      }
      if currentUser.None? {
        return Failure(NoCurrentUser);
      }
      var u := currentUser.value.(name := Some(newName));
      currentUser := Some(u);
      storage.SetItem(UserKey, EncodeUser(Obj(u)));
      UserRoundTrip(Obj(u));
      assert Get(storage.items, TodosKey) == Get(old(storage.items), TodosKey);
      if !appLoading {
        SavedFrame(old(storage.items), storage.items, todos);
      }
      return Success(u);
    }

    /** `handleThemeChange` (src/authapp.js:127-132): the theme is shown and stored. */
    method ChangeTheme(newTheme: string)
      requires Valid()
      modifies this`theme, storage
      ensures Valid()
      ensures theme == newTheme && storage.items == old(storage.items)[ThemeKey := newTheme]
    {
      KeysDistinct();
      theme := newTheme;
      storage.SetItem(ThemeKey, newTheme);
    }

    /** Choosing a filter, and the effect that stores it (src/authapp.js:100-102). */
    method SetTodoFilter(filter: string)
      requires Valid()
      modifies this`todoFilter, storage
      ensures Valid()
      ensures todoFilter == filter && storage.items == old(storage.items)[TodoFilterKey := filter]
    {
      KeysDistinct();
      todoFilter := filter;
      storage.SetItem(TodoFilterKey, filter);
    }

    /**
     * `setTodos(next)` and the persistence effect it triggers (src/authapp.js:94-98): the list
     * is replaced, and once loading is over it is saved.
     */
    method SetTodos(next: seq<Todo>)
      requires Valid()
      modifies this`todos, storage
      ensures Valid()
      ensures todos == next && storage.items == PersistTodos(old(storage.items), next, appLoading)
    {
      KeysDistinct();
      todos := next;
      SaveTodos();
      PersistSaves(old(storage.items), todos);
    }

    /** `addTodo` (src/authapp.js:225-235); a refused input leaves the list, so no effect runs. */
    method AddTodo(input: string, id: nat, now: nat)
      requires Valid()
      modifies this`todos, storage
      ensures Valid()
      ensures todos == Todos.AddTodo(old(todos), input, id, now)
      ensures IsBlank(input) ==> storage.items == old(storage.items)
      ensures !IsBlank(input) ==> storage.items == PersistTodos(old(storage.items), todos, appLoading)
    {
      var text := Trim(input);
      if text != [] {
        SetTodos([NewTodo(text, id, now)] + todos);
      }
    }

    /** `toggleTodoComplete` (src/authapp.js:252-265). */
    method ToggleTodoComplete(id: nat)
      requires Valid()
      modifies this`todos, storage
      ensures Valid()
      ensures todos == ToggleComplete(old(todos), id)
      ensures storage.items == PersistTodos(old(storage.items), todos, appLoading)
    {
      SetTodos(ToggleComplete(todos, id));
    }

    /** `toggleTodoImportant` (src/authapp.js:237-249). */
    method ToggleTodoImportant(id: nat)
      requires Valid()
      modifies this`todos, storage
      ensures Valid()
      ensures todos == ToggleImportant(old(todos), id)
      ensures storage.items == PersistTodos(old(storage.items), todos, appLoading)
    {
      SetTodos(ToggleImportant(todos, id));
    }

    /** `deleteTodo`, first phase (src/authapp.js:267-269): mark the task and start its timer. */
    method DeleteTodo(id: nat)
      requires Valid()
      modifies this`todos, this`pendingDeletes, storage
      ensures Valid()
      ensures todos == MarkForDeletion(old(todos), id)
      ensures pendingDeletes == old(pendingDeletes) + multiset{id}
      ensures storage.items == PersistTodos(old(storage.items), todos, appLoading)
    {
      SetTodos(MarkForDeletion(todos, id));
      pendingDeletes := pendingDeletes + multiset{id};
    }

    /** `deleteTodo`, second phase (src/authapp.js:270-276): the timer removes the task. */
    method DeleteTimerElapsed(id: nat)
      requires Valid() && id in pendingDeletes
      modifies this`todos, this`pendingDeletes, storage
      ensures Valid()
      ensures todos == RemoveById(old(todos), id)
      ensures pendingDeletes == old(pendingDeletes) - multiset{id}
      ensures storage.items == PersistTodos(old(storage.items), todos, appLoading)
    {
      SetTodos(RemoveById(todos, id));
      pendingDeletes := pendingDeletes - multiset{id};
    }

    /** The list as the task panel shows it (src/authapp.js:279-286). */
    function VisibleTodos(search: string): (r: seq<Todo>)
      reads this
      ensures forall t :: multiset(r)[t] == if Visible(todoFilter, search, t) then multiset(todos)[t] else 0
      ensures forall t :: t in r <==> t in todos && Visible(todoFilter, search, t)
      ensures Ordered(r) && IsSubsequence(r, SortTodos(todos))
    {
      FilteredTodos(todos, todoFilter, search)
    }
  }
}
