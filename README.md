# AuthApp: a Dafny model of the single-page auth-and-tasks component

This project models the `AuthApp` React component in `src/authapp.js`. It covers:

- the session logic: signup, login, logout, the profile-name update and the deferred startup
  restore. All of these go through `localStorage`, which holds the single user record under
  `"user"`, the session flag under `"auth"` and a login stamp under `"lastLogin"`;
- the task list: adding, toggling completion and importance, and the two-phase delete. The list
  is persisted under `react_todos_single_app`;
- the `filteredTodos` view and the counts and progress figure derived from the list;
- the theme and the task filter, both persisted.

The project has six modules:

- `Wrappers` holds `Option` and `Outcome`.
- `Text` models the string helpers the component relies on: `trim`, blankness, ASCII
  lower-casing, substring search, and the `/\S+@\S+\.\S+/` e-mail test.
- `Todos` models the task record, the list updaters handed to `setTodos`, the sort, filter and
  search of `filteredTodos`, and the counts and progress.
- `Codec` is this model's own text encoding for the two structured values kept in storage. It
  stands in for `JSON.stringify`/`JSON.parse`, and its round-trip lemmas are the property those
  two functions give the component.
- `Session` specifies each handler as a pure transition of the store, a `map<string, string>`.
  Properties that span several handlers are proved there: signup then login, login then
  reload, logout then reload, rename then reload, and save then reload.
- `App` is the component as an object. `LocalStorage` is a class whose map is updated in place.
  `AuthApp` holds the state hooks as fields and the handlers and timer callbacks as methods.
  `Mount` establishes the invariant `Valid`, and every handler and timer method keeps it. Three
  helper steps do not state it: `ResumeSession`, which may rewrite `"user"` while the startup
  timer still counts as pending; `SaveTodos`; and `ReadStoredUser`, which changes nothing. The
  handlers that sign in, sign up, sign out, rename, restore or change the task list are proved against the `Session` or `Todos`
  function that specifies them. The theme and filter handlers and the `LocalStorage` methods
  state their map update directly. `Valid` says four things:
  - whenever a user is on screen, the store holds `"auth" = "true"` and `"user"` reads back as
    that same user (the converse does not hold: see the stale flag below);
  - the stored filter is the filter on screen;
  - once loading is over, the stored list reads back as the list on screen;
  - until the startup timer fires, the values its closure captured are those of the store.

Clock readings, `Date.now()` and the locale-formatted dates are parameters: `today`, `stamp`,
`id` and `now`. The component's timers are separate methods, which the caller invokes when the
timer fires: `RestoreSession` for the 1200 ms startup timer, `LoadingFinished` for the 300 ms
timer that logout starts, and `DeleteTimerElapsed` for the 300 ms delete timer.

The model follows the code in these places, some of them easy to misread:

- Signup parses any non-empty stored `"user"` text before comparing e-mails. A stored text that
  does not parse makes the signup fail, as `JSON.parse` throws. So does the text `"null"`,
  because reading `.email` of `null` throws. The model reports both as `UnreadableUserRecord`.
- Login fails with the parse error on an unreadable stored text. It treats a missing or empty
  text, or `"null"`, as "no user", which gives `InvalidCredentials`.
- A login whose stored record has no `signupDate` writes the back-filled record to the store
  before the credentials are compared. A failed login can therefore rewrite `"user"`.
- The theme and filter values are stored and shown as given, without validation. An unknown
  filter shows every task.
- The signup password check measures the untrimmed password.
- The startup restore leaves `"auth"` in place when `"user"` is missing. With such a stale flag,
  a later signup's user is resumed on the next reload without any login
  (`Session.StaleFlagResumesSignup`).
- A reload between the two delete phases drops the pending removal timer, but the list was
  already stored with the record flagged `deleting`. After the reload that record stays in the
  list, hidden from every view and every count, and nothing removes it
  (`Session.FlaggedSurvivesReload`; a fresh `App.AuthApp.Mount` has no pending removals).

## Model

| member | source | states |
|---|---|---|
| Text.Trim | src/authapp.js:227 | `trim()` yields the slice of the input between its leading and trailing white space; everything cut away is white space, and the result neither starts nor ends with white space |
| Text.BlankIffAllSpace | src/authapp.js:141 | a field fails the `!x.trim()` test exactly when every character of it is white space (the empty field included) |
| Text.EmailPatternShape | src/authapp.js:142 | an address the e-mail test accepts contains an `@` followed later by a `.` that is not its last character, and is not blank |
| Text.EmailPatternUnanchored | src/authapp.js:142 | the e-mail test is unanchored: text added before or after an accepted address keeps it accepted |
| Todos.AddTodo | src/authapp.js:225-235 | input that trims to nothing leaves the list unchanged; otherwise exactly one new record goes in front of the unchanged list. The new record has the given id and time stamp, is neither completed, important nor being deleted, and carries the trimmed, non-empty text |
| Todos.ToggleComplete | src/authapp.js:252-265 | same length; `completed` flips on exactly the records with this id; every other field and record is unchanged |
| Todos.ToggleImportant | src/authapp.js:237-249 | same length; `important` flips on exactly the records with this id; every other field and record is unchanged |
| Todos.ToggleCompleteTwice | src/authapp.js:252-265 | toggling completion twice with the same id restores the original list |
| Todos.ToggleImportantTwice | src/authapp.js:237-249 | toggling importance twice with the same id restores the original list |
| Todos.MarkForDeletion | src/authapp.js:267-269 | first delete phase: same length; `deleting` is set on exactly the records with this id; every other field and record is unchanged |
| Todos.RemoveById | src/authapp.js:270-276 | second delete phase: no record with this id survives; every other record survives with its multiplicity and in its original relative order |
| Todos.DeletePhasesCompose | src/authapp.js:267-277 | flagging, then removing, leaves the same list as removing alone |
| Todos.SortTodos | src/authapp.js:280 | the sort returns a permutation of the list in comparator order: important records first, then newest first |
| Todos.SortStable | src/authapp.js:280 | the sort is stable: for any set of records that the comparator ties pairwise (same importance, same creation time), the sorted list holds them in their input order |
| Todos.FilteredTodos | src/authapp.js:279-286 | the view holds each record exactly as often as the list does when it passes the status filter and the search and is not being deleted, and none otherwise. It is in sorted order, and it is a sublist of the sorted copy, so tied records keep their input order |
| Todos.ImportantFirst | src/authapp.js:280 | in the view, no record that is not important precedes an important one |
| Todos.MarkedHiddenButKept | src/authapp.js:268 | between the two delete phases a flagged record is still in the list with all other fields intact, yet no view shows any record with that id |
| Todos.CountsAddUp | src/authapp.js:288-290 | the active and completed counts add up to the total count of records not being deleted, which never exceeds the list length |
| Todos.ActiveCountIsActiveView | src/authapp.js:281 | the active count equals the length of the `'active'` view with no search term |
| Todos.AddTodoShown | src/authapp.js:229 | after an accepted add, with no search term, the new record shows under every filter but `'completed'`; the active and total counts grow by one and the completed count stays |
| Todos.Progress | src/authapp.js:291 | the progress figure is 0 with no tasks; otherwise it is the whole percentage nearest to `100 * completed / total`, with halves rounded up, between 0 and 100, 0 when nothing is done and 100 when everything is |
| Todos.TodoProgress | src/authapp.js:291 | the figure the dashboard shows is at most 100, and 0 when no record is left |
| Codec.TodosRoundTrip | src/authapp.js:96 | a stored task list parses back to the same list, field for field |
| Codec.TodosEncodingInjective | src/authapp.js:96 | distinct task lists are stored as distinct texts |
| Codec.UserRoundTrip | src/authapp.js:151 | a stored user object (or `null`) parses back to the same value |
| Codec.UserEncodingInjective | src/authapp.js:151 | distinct user values are stored as distinct texts |
| Session.Signup | src/authapp.js:140-155 | signup succeeds exactly when the three fields are non-blank, the e-mail passes the test, the password has 8+ characters and the stored slot is empty or holds a parseable object with another e-mail. A success returns the typed record stamped with today's date and writes only `"user"`; a failure leaves the store unchanged |
| Session.SignupChecksInOrder | src/authapp.js:141-145 | the reported error is the first failing check, in source order: mandatory fields, e-mail format, password length, unreadable stored record, already registered |
| Session.SignupRejectsRegisteredEmail | src/authapp.js:145 | with valid input, a stored object carrying the same e-mail refuses the signup and leaves the store unchanged |
| Session.BackfilledStore | src/authapp.js:161-164 | login's write-back: the store is unchanged if the stored record has a `signupDate`; otherwise `"user"` holds the record with today's date. In both cases `"user"` parses to the back-filled record and no other key changes |
| Session.Login | src/authapp.js:157-178 | login succeeds exactly when both inputs are non-blank and the stored object has exactly this e-mail and password. A success returns the back-filled record and sets `"auth"` and `"lastLogin"` on the back-filled store. A failure after the blank check, with a stored object, still leaves the back-filled store; a blank input or no stored object leaves the store unchanged |
| Session.LoginEffects | src/authapp.js:157-178 | key by key: a success leaves `"auth" = "true"`, the login stamp, and `"user"` parsing to the signed-in user; a failure leaves both session keys unchanged; no other key ever changes |
| Session.Logout | src/authapp.js:190-192 | logout removes exactly `"auth"` and `"lastLogin"`; every other key, `"user"` included, keeps its value |
| Session.UpdateProfileName | src/authapp.js:204-221 | the update succeeds exactly when the new name is not blank and a user is signed in. A success changes only the name, to the text as typed, and writes the record to `"user"`; a failure leaves the store unchanged |
| Session.Restore | src/authapp.js:66-85 | the startup restore resumes a user exactly when the flag was `"true"` and the captured text parses to an object with an e-mail. It back-fills a missing `signupDate`, rewriting `"user"` only then. A parse failure or a missing e-mail removes `"auth"` and `"user"`; without the flag or the text nothing happens |
| Session.RestoreEstablishesSession | src/authapp.js:63-77 | when the restore runs on the values the store held, a resumed user leaves `"auth" = "true"` and `"user"` parsing to exactly that user |
| Session.PersistTodos | src/authapp.js:94-98 | once loading is over, a non-empty list, or any list when one was stored before, is written and reads back exactly; nothing is written otherwise; no other key changes |
| Session.PersistSaves | src/authapp.js:94-98 | after the persistence effect runs with loading over, the stored list is the list on screen |
| Session.SavedReloads | src/authapp.js:54-61 | a saved list is exactly what the next mount reads back |
| Session.SignupThenLogin | src/authapp.js:140-178 | after a successful signup, a login with the same e-mail and password succeeds, returns the new user and sets `"auth"` |
| Session.LoginChecksInOrder | src/authapp.js:157-178 | which error login reports: `CredentialsRequired` exactly when an input is blank; `UnreadableUserRecord` exactly when both are non-blank and the stored text is set but does not parse; `InvalidCredentials` exactly in every other case where the stored object does not carry this e-mail and password |
| Session.UpdateChecksInOrder | src/authapp.js:205-216 | which error the profile update reports: `NameEmpty` exactly when the name is blank; `NoCurrentUser` exactly when it is not blank and nobody is signed in |
| Session.WrongPasswordStaysSignedOut | src/authapp.js:166-178 | after a signup, a login with another password fails and leaves `"auth"` as it was. The error is `InvalidCredentials`, or `CredentialsRequired` when that password is blank |
| Session.LoginSurvivesReload | src/authapp.js:63-77 | after a successful login, the next startup restore resumes the same user |
| Session.StaleFlagResumesSignup | src/authapp.js:67 | when the store holds `"auth" = "true"`, a successful signup's user is resumed by the next startup restore, back-filled, with no login |
| Session.ThemeSurvivesReload | src/authapp.js:50 | a theme written to `"theme"` is what the next mount shows; an empty one reads as `'light'` |
| Session.FilterSurvivesReload | src/authapp.js:55 | a filter written to the filter key is what the next mount shows; an empty one reads as `'all'` |
| Session.LogoutSurvivesReload | src/authapp.js:190-192 | after logout, the next startup restore resumes nobody and leaves the store unchanged |
| Session.RenameSurvivesReload | src/authapp.js:210-212 | in a store holding `"auth" = "true"`, when the current user has a non-empty e-mail and a non-empty `signupDate`, a successful rename is what the next startup restore resumes, and that restore leaves the store unchanged |
| Session.FlaggedSurvivesReload | src/authapp.js:269-276 | a reload between the two delete phases keeps the flagged record, stored with `deleting` set, in the mounted list, and no view shows that id again |
| Session.PersistedTodosSurviveReload | src/authapp.js:58-61 | a list written by the persistence effect is exactly what the next mount shows |
| App.LocalStorage.GetItem | src/authapp.js:158 | `getItem` returns the stored text exactly when the key is present, and nothing otherwise |
| App.LocalStorage.SetItem | src/authapp.js:96 | `setItem` maps the key to the new text and leaves every other key as it was |
| App.LocalStorage.RemoveItem | src/authapp.js:191-192 | `removeItem` deletes exactly that key and leaves every other key as it was |
| App.AuthApp.Mount | src/authapp.js:47-61 | the first render reads the theme (default `'light'`), the filter (default `'all'`) and the task list (empty when absent or unparseable). It captures the `"auth"` flag and the `"user"` text for the startup timer, starts with no pending removal or loading timer, shows the loading screen, writes only the filter key, and establishes `Valid` |
| App.AuthApp.SaveTodos | src/authapp.js:94-98 | the persistence effect changes the store exactly as `Session.PersistTodos` says |
| App.AuthApp.RestoreSession | src/authapp.js:63-89 | the startup timer puts on screen exactly the user `Session.Restore` resumes. The store becomes the restored store with the list persisted; the loading screen comes down and `Valid` holds |
| App.AuthApp.ResumeSession | src/authapp.js:64-85 | the in-place restore leaves the user on screen and the store as `Session.Restore` says, keeps the task and filter keys unchanged, and establishes that a user on screen is the user in the store |
| App.AuthApp.ReadStoredUser | src/authapp.js:158-159 | the parse of `"user"` fails exactly when the text is non-empty and unreadable; it gives an object exactly when a user is stored, and then that user |
| App.AuthApp.Signup | src/authapp.js:140-155 | the handler returns what `Session.Signup` returns and leaves the store as it says, keeping `Valid` |
| App.AuthApp.RegisterUser | src/authapp.js:144-151 | an unreadable stored record, or one with this e-mail, refuses with the matching error and writes nothing; otherwise the new record is stored under `"user"` |
| App.AuthApp.Login | src/authapp.js:157-178 | the handler returns what `Session.Login` returns and leaves the store as it says. The user is signed in exactly on success, with the returned user on screen, and `Valid` holds |
| App.AuthApp.BackfillSignupDate | src/authapp.js:161-164 | the record on screen is the stored one with a missing date filled in. The store becomes `Session.BackfilledStore`, and the stored user then reads back as that record |
| App.AuthApp.CheckCredentials | src/authapp.js:166-178 | exactly on matching e-mail and password: success with the stored record, and `"auth"` and `"lastLogin"` set. Otherwise `InvalidCredentials` and an unchanged store. The user is signed in exactly on success |
| App.AuthApp.Logout | src/authapp.js:190-202 | the store changes as `Session.Logout` says; nobody is signed in, the loading screen is up, and one more 300 ms timer is pending |
| App.AuthApp.LoadingFinished | src/authapp.js:199-200 | the timer brings the loading screen down; if it was up, the task list is persisted as on any change of `appLoading`, otherwise the store is unchanged |
| App.AuthApp.UpdateProfileName | src/authapp.js:204-221 | the handler returns what `Session.UpdateProfileName` returns and leaves the store as it says. On success the renamed user is on screen; on failure the user on screen is unchanged |
| App.AuthApp.ChangeTheme | src/authapp.js:127-132 | the theme on screen and the `"theme"` key both become the new theme; no other key changes |
| App.AuthApp.SetTodoFilter | src/authapp.js:100-102 | the filter on screen and the filter key both become the chosen filter; no other key changes |
| App.AuthApp.SetTodos | src/authapp.js:94-98 | the list becomes the new list, and the store changes exactly as the persistence effect says |
| App.AuthApp.AddTodo | src/authapp.js:225-235 | the list becomes `Todos.AddTodo` of the old list. A refused input changes no key; an accepted one persists the list |
| App.AuthApp.ToggleTodoComplete | src/authapp.js:252-265 | the list becomes `Todos.ToggleComplete` of the old list and is persisted |
| App.AuthApp.ToggleTodoImportant | src/authapp.js:237-249 | the list becomes `Todos.ToggleImportant` of the old list and is persisted |
| App.AuthApp.DeleteTodo | src/authapp.js:267-270 | the list becomes `Todos.MarkForDeletion` of the old list and is persisted; one more removal timer for this id is pending |
| App.AuthApp.DeleteTimerElapsed | src/authapp.js:270-276 | the timer's removal makes the list `Todos.RemoveById` of the current list and persists it; its pending timer is consumed |
| App.AuthApp.VisibleTodos | src/authapp.js:279-286 | the task panel shows each record of the current list exactly as often as the list holds it when it passes the current filter and the search and is not being deleted, and none otherwise. The order is sorted and is a sublist of the sorted copy, so tied records keep their order |

## Left out

- Rendering is not modelled: JSX, CSS classes, `document.body.className`, toasts, the `message` banner and its 5-second timer, and the modals.
- These state hooks are not modelled: `isLoading`, `isProfileLoading`, `simulatedDataLoading`, `featureVisible`, `activeFeature`, `showPassword`, `isSignup`, the edited name, the credentials and the new-task text. The handlers that only set them are left out too: input changes, cancelling the profile edit, and switching forms.
- The handlers' own latency is collapsed. `handleAuth` runs its body after 1000 ms and `handleUpdateUser` after 700 ms; the model runs each as one step. Interleavings of those bodies with other handlers are not modelled.
- The model does not interleave the mount effect with the first render; it performs both in `App.AuthApp.Mount`.
- App.AuthApp.Signup, App.AuthApp.Login: the model requires that nobody is signed in and that the startup timer has fired, because the auth form is shown only then. Calls made under other conditions are not modelled.
- App.AuthApp.Logout: the model requires that the startup timer has fired, because the logout button appears only after it.
- `Date.now()`, `new Date().toISOString()`, `toLocaleDateString` and `toLocaleString` are parameters. Task ids are not assumed unique, so a repeated `Date.now()` value is covered. `createdAt` is modelled as the instant's millisecond value rather than its ISO text; the sort compares those instants.
- `JSON.stringify` and `JSON.parse` are replaced by the model's own encoding with the same round-trip property. The encoding covers only the two shapes the component writes: an object with four optional string fields (or `null`) and an array of task records. Any other stored JSON is treated as unparseable; this includes a number or string under `"user"`, or a non-array under the task key. Real JSON would parse some of these: a non-array task value would then reach the list, and signup would proceed past a non-object user value.
- Text.Lower covers ASCII letters only, and string length counts characters rather than UTF-16 code units.
- Todos.Progress: computed with exact integer arithmetic (round half up), whereas the source divides in floating point before `Math.round`; the two can differ only where the floating-point quotient is off by one ulp at a half.
- `src/reportWebVitals.js` is not part of this model.
