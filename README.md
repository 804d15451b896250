# Habit Tracker — a Dafny model of its core

Habit Tracker is a small web application with two halves.

- **Client.** A React client keeps a todo list and a "streak" ledger of active days in the browser's `localStorage`. It has four pages:
  - the todo list (`TodoPage`);
  - the streak calendar (`SteakPage`);
  - a dashboard summary (`DashboardOverview`);
  - a settings page (`ParametrePage`) with the theme, export, import and reset of the stored data, and a demo password form.
- **Server.** An Express/MongoDB server has:
  - user accounts with registration and login that issue JWTs (`auth.js`);
  - a per-user todo API with bulk sync, list, create, update and delete (`todos.js`);
  - a scheduled job that emails each user with pending todos a reminder at most once a day (`notificationService.js`, `emailService.js`).

This project models that core in Dafny and proves its behaviour:

| module | file | models |
|---|---|---|
| `Wrappers` | `wrappers.dfy` | Option |
| `Text` | `text.dfy` | the string built-ins the code relies on: `trim`, `toLowerCase`, `String(n)`, `join` and `split` |
| `Seqs` | `seqs.dfy` | `Array.prototype.filter` |
| `Days` | `days.dfy` | calendar days and their ISO `YYYY-MM-DD` keys |
| `Storage` | `storage.dfy` | `localStorage` as a map from key to cell, and the JSON read/write helpers |

The pages are classes whose fields are the React state and whose methods are the event handlers:

| module | file | page |
|---|---|---|
| `TodoPage` | `todo_page.dfy` | todo list |
| `StreakPage` | `streak_page.dfy` | streak calendar |
| `Dashboard` | `dashboard.dfy` | dashboard summary |
| `SettingsPage` | `settings_page.dfy` | settings page and password form |

Each handler is tied to a pure function of the old state, and the properties are proved about those functions.

The server is modelled the same way:

- `ServerModels` (`server_models.dfy`) holds the Mongoose schemas.
- `TodoRoutes` (`todo_routes.dfy`) holds the todo API, over a `TodoStore` class that holds the todo collection.
- `AuthRoutes` (`auth_routes.dfy`) holds the auth API, over a `UserTable` class.
- `EmailService` (`email_service.dfy`) holds the reminder mail.
- `NotificationService` (`notification_service.dfy`) holds one pass of the reminder job. It is an imperative loop over the users, proved against a recursive specification.

## Behaviour worth noting

Three behaviours of the code, which the model keeps:

- **Streak after marking today.** Marking today's activity when yesterday and the day before are marked makes the streak at least 3, because it extends yesterday's run. See `StreakPage.YesterdayRunScenario`.
- **The todo page is local.** The todo page keeps its list in the page state and the `todos` storage slot only; it never calls the server's todo API.
- **Whitespace title on a missing todo.** `PUT /api/todos/:id` on a missing todo with a whitespace-only title trims it to `""`. The schema's `required` then rejects it, and the route answers 500.

## Model

| member | source | states |
|---|---|---|
| Text.Trim | client/src/pages/TodoPage.jsx:39 | the result has no surrounding whitespace; it is empty exactly when the input is blank |
| Text.TrimIsSlice | client/src/pages/TodoPage.jsx:39 | the trim is the contiguous piece of the input that starts right after its leading whitespace |
| Text.TrimDropsOnlyWhitespace | client/src/pages/TodoPage.jsx:39 | everything before and after that piece is whitespace, so trimming removes nothing else |
| Text.TrimIdempotent | client/src/pages/TodoPage.jsx:39 | trimming a trimmed title changes nothing |
| Text.TrimTrimmed | client/src/pages/TodoPage.jsx:39 | a string without surrounding whitespace is its own trim |
| Text.ToLower | server/src/routes/auth.js:20 | same length; every character is lowered; the result is lower-case |
| Text.ToLowerOfLower | server/src/routes/auth.js:20-27 | lowering an already lower-case e-mail leaves it unchanged |
| Text.NatText | server/src/services/emailService.js:34 | the decimal text of a number is never empty |
| Text.NatTextShape | server/src/services/emailService.js:34 | the decimal text is made of digits, ends in the number's last digit, and is one digit long exactly below 10 |
| Text.NatTextInjective | server/src/services/emailService.js:34 | different numbers print differently |
| Text.Join | server/src/services/emailService.js:33-35 | joining no lines gives "" and joining one line gives that line |
| Text.SplitJoin | server/src/services/emailService.js:33-35 | splitting a join on a separator that no line contains gives the lines back |
| Seqs.Filter | client/src/pages/TodoPage.jsx:64 | the kept elements are exactly the input's elements that pass the test, never more of them |
| Seqs.FilterAppend | client/src/pages/TodoPage.jsx:64 | filtering preserves order: it distributes over concatenation |
| Seqs.FilterIdempotent | client/src/pages/TodoPage.jsx:68 | filtering twice by the same test equals filtering once |
| Days.KeySign | client/src/pages/SteakPage.jsx:18-20 | the injective key that stands in for the ISO date text is never empty, and it tells days before the epoch apart from the others by its first character (a step of `KeyInjective`) |
| Days.KeyInjective | client/src/pages/SteakPage.jsx:18-20 | different days have different ISO date keys |
| Storage.ReadJson | client/src/pages/ParametrePage.jsx:27-34 | an absent, empty or unparsable slot reads as the fallback; otherwise as the stored value |
| Storage.WriteJson | client/src/pages/ParametrePage.jsx:36-38 | writing adds exactly the written key to the stored keys |
| Storage.ReadAfterWrite | client/src/pages/ParametrePage.jsx:27-38 | reading a written key gives the written value, and other keys read as before |
| TodoPage.Added | client/src/pages/TodoPage.jsx:37-46 | a blank draft changes nothing; otherwise exactly one new todo is prepended, with the trimmed non-empty title, uncompleted, stamped now |
| TodoPage.Toggled | client/src/pages/TodoPage.jsx:48-52 | only todos with the id change: their completion flips, and completedAt is now when completing and null when reopening |
| TodoPage.Removed | client/src/pages/TodoPage.jsx:63-65 | exactly the todos with the id disappear |
| TodoPage.Pending | client/src/pages/TodoPage.jsx:67-69 | exactly the uncompleted todos remain |
| TodoPage.Remaining | client/src/pages/TodoPage.jsx:35 | the count equals the list length exactly when nothing is completed, and is 0 exactly when everything is |
| TodoPage.RemainingCounts | client/src/pages/TodoPage.jsx:35 | the count is the number of incomplete todos, counted one todo at a time |
| TodoPage.PendingLength | client/src/pages/TodoPage.jsx:67-69 | clearing completed todos keeps everything exactly when none is completed, and empties the list exactly when all are |
| TodoPage.MarkActivity | client/src/pages/TodoPage.jsx:53-58 | the ledger only gains today's key, and has it exactly when it had it before or some todo was completed today |
| TodoPage.TodoPageState.constructor | client/src/pages/TodoPage.jsx:24-29 | the page starts from the stored todos and ledger with an empty draft |
| TodoPage.TodoPageState.EditDraft | client/src/pages/TodoPage.jsx:82 | typing changes only the draft |
| TodoPage.TodoPageState.AddTodo | client/src/pages/TodoPage.jsx:37-46 | the list becomes Added of the old list, and the draft is cleared only when a todo was added |
| TodoPage.TodoPageState.ToggleTodo | client/src/pages/TodoPage.jsx:48-61 | the list is toggled and the ledger is updated from the new list |
| TodoPage.TodoPageState.RemoveTodo | client/src/pages/TodoPage.jsx:63-65 | the list loses the todo; nothing else changes |
| TodoPage.TodoPageState.ClearCompleted | client/src/pages/TodoPage.jsx:67-69 | the list keeps only pending todos; nothing else changes |
| TodoPage.AddedConsistent | client/src/pages/TodoPage.jsx:41-44 | adding keeps "completedAt is set exactly when completed" for every todo |
| TodoPage.ToggledConsistent | client/src/pages/TodoPage.jsx:51 | toggling keeps that invariant |
| TodoPage.RemovedAndPendingConsistent | client/src/pages/TodoPage.jsx:63-69 | removing and clearing keep that invariant |
| TodoPage.CompletingMarksToday | client/src/pages/TodoPage.jsx:48-58 | completing a pending todo always marks today as active |
| TodoPage.MarkIdempotent | client/src/pages/TodoPage.jsx:55-57 | a day already marked is not marked again |
| TodoPage.ToggleTwiceRestoresPending | client/src/pages/TodoPage.jsx:51 | toggling a pending todo twice restores the list exactly |
| TodoPage.RemovedKeepsOrder | client/src/pages/TodoPage.jsx:64 | removal keeps the order of the remaining todos |
| TodoPage.RemoveAbsent | client/src/pages/TodoPage.jsx:64 | removing an unknown id changes nothing |
| TodoPage.ClearCompletedOrderAndIdempotent | client/src/pages/TodoPage.jsx:68 | clearing keeps order and a second clear changes nothing |
| StreakPage.Streak | client/src/pages/SteakPage.jsx:22-33 | the result is the streak: the last n days up to today are marked and day today-n is not |
| StreakPage.RunWithinLedger | client/src/pages/SteakPage.jsx:22-33 | a run of marked days is no longer than the ledger, so the counting loop ends |
| StreakPage.CurrentStreak | client/src/pages/SteakPage.jsx:22-33 | the loop computes exactly the streak, bounded by the ledger size |
| StreakPage.StreakUnique | client/src/pages/SteakPage.jsx:25-31 | at most one number is the streak |
| StreakPage.StreakCoversRun | client/src/pages/SteakPage.jsx:25-31 | every marked run ending today is within the streak |
| StreakPage.StreakZeroIff | client/src/pages/SteakPage.jsx:25-30 | the streak is 0 exactly when today is unmarked, and always for an empty ledger |
| StreakPage.GapCapsStreak | client/src/pages/SteakPage.jsx:29-30 | an unmarked day g days back caps the streak at g |
| StreakPage.StreakIgnoresOlderDays | client/src/pages/SteakPage.jsx:29-30 | days before the first gap do not affect the streak |
| StreakPage.ConsecutiveDaysStreak | client/src/pages/SteakPage.jsx:22-33 | n consecutive marked days ending today give a streak of n |
| StreakPage.MarkTodayExtends | client/src/pages/SteakPage.jsx:22-33 | marking today makes the streak one more than yesterday's streak |
| StreakPage.YesterdayRunScenario | client/src/pages/SteakPage.jsx:22-33 | with yesterday and the day before marked and today unmarked, the streak is 0 and marking today makes it at least 3 |
| StreakPage.GenerateCalendar | client/src/pages/SteakPage.jsx:35-44 | the calendar has max(range, 0) consecutive days ending today |
| StreakPage.LedgerOf | client/src/pages/SteakPage.jsx:49-52 | a stored array gives the set of its strings; anything else gives the empty ledger |
| StreakPage.LoadLedger | client/src/pages/SteakPage.jsx:49-52 | the ledger loaded from storage, empty unless a JSON array is stored |
| StreakPage.ToggledKey | client/src/pages/SteakPage.jsx:57-65 | exactly the clicked day's membership flips |
| StreakPage.ToggleKeyTwice | client/src/pages/SteakPage.jsx:57-65 | clicking a day twice restores the ledger |
| StreakPage.StreakPageState.Load | client/src/pages/SteakPage.jsx:49-52 | the page starts from the stored ledger |
| StreakPage.StreakPageState.ToggleDay | client/src/pages/SteakPage.jsx:57-66 | the ledger has the day's key toggled |
| StreakPage.StreakPageState.Render | client/src/pages/SteakPage.jsx:54-55 | the shown streak is the streak; the 28 shown days end today, each active exactly when marked |
| Dashboard.PendingPreview | client/src/pages/DashboardOverview.jsx:43 | at most three todos, all pending, forming a prefix of the pending list, and the whole of it when fewer than three are shown |
| Dashboard.CompletedToday | client/src/pages/DashboardOverview.jsx:44 | "done today" holds exactly when the streak is positive |
| Dashboard.DashboardStreak | client/src/pages/DashboardOverview.jsx:20-31 | the dashboard's copy of the loop also computes exactly the streak |
| Dashboard.Overview | client/src/pages/DashboardOverview.jsx:37-45 | preview, "done today" and streak from the stored data; "done today" exactly when the streak is positive |
| SettingsPage.StoredTheme | client/src/pages/ParametrePage.jsx:8-14 | a missing or empty stored theme means dark; any other stored value is kept |
| SettingsPage.NextTheme | client/src/pages/ParametrePage.jsx:61-64 | dark switches to light, and everything else switches to dark |
| SettingsPage.NextThemeTwice | client/src/pages/ParametrePage.jsx:61-64 | toggling twice restores the theme exactly for dark and light |
| SettingsPage.Export | client/src/pages/ParametrePage.jsx:82-88 | the snapshot has exactly the todos, activity, exportedAt and version fields; the data fields read with an [] fallback; version is 1 |
| SettingsPage.WriteIfArray | client/src/pages/ParametrePage.jsx:105-106 | a field is written only when the file holds an array there |
| SettingsPage.Imported | client/src/pages/ParametrePage.jsx:98-113 | an unparsable or null file is refused and changes nothing; otherwise each data slot is replaced exactly when the file carries an array for it; other slots are unchanged |
| SettingsPage.ExportImportRestores | client/src/pages/ParametrePage.jsx:82-106 | importing an export into any store succeeds; each slot then reads as the exported value when it is an array, and keeps the store's own value otherwise |
| SettingsPage.ExportImportRoundTrip | client/src/pages/ParametrePage.jsx:82-106 | when both exported slots are arrays, importing the export into any store restores the todos and the activity ledger |
| SettingsPage.NonArrayNotRestored | client/src/pages/ParametrePage.jsx:83-106 | a stored non-array value (here `null`) is exported, but the import skips it, so it is not restored |
| SettingsPage.Reset | client/src/pages/ParametrePage.jsx:115-127 | a confirmed reset stores an empty array under the key; a cancelled one changes nothing; other keys are untouched |
| SettingsPage.SettingsPageState.constructor | client/src/pages/ParametrePage.jsx:51-59 | the page starts from storage with the stored theme applied and saved |
| SettingsPage.SettingsPageState.ToggleTheme | client/src/pages/ParametrePage.jsx:61-64 | the theme switches and is saved; the data is untouched |
| SettingsPage.SettingsPageState.ExportData | client/src/pages/ParametrePage.jsx:82-96 | the downloaded snapshot holds the stored todos and activity and version 1 |
| SettingsPage.SettingsPageState.ImportFile | client/src/pages/ParametrePage.jsx:98-113 | no file does nothing; a file gives the alert and storage of Imported; the theme is untouched |
| SettingsPage.SettingsPageState.ResetTodos | client/src/pages/ParametrePage.jsx:115-120 | storage becomes the confirmed or cancelled reset of the todos |
| SettingsPage.SettingsPageState.ResetStreak | client/src/pages/ParametrePage.jsx:122-127 | storage becomes the confirmed or cancelled reset of the ledger |
| SettingsPage.PasswordProblem | client/src/pages/ParametrePage.jsx:404-418 | "too short" exactly below 6 characters, "mismatch" exactly when long enough but unconfirmed, and no problem otherwise |
| SettingsPage.PasswordForm.constructor | client/src/pages/ParametrePage.jsx:398-402 | the form starts empty |
| SettingsPage.PasswordForm.Edit | client/src/pages/ParametrePage.jsx:423-431 | typing sets the three fields and keeps the message |
| SettingsPage.PasswordForm.Submit | client/src/pages/ParametrePage.jsx:404-418 | a problem shows its message and keeps the fields; success shows the demo message and clears all three fields |
| ServerModels.CreateTodo | server/src/models/Todo.js:5-10 | fails exactly without a non-empty title; otherwise completed defaults to false, createdAt to now, and lastReminderSent to null |
| ServerModels.CreateUser | server/src/models/User.js:5-9 | fails exactly without a non-empty e-mail; the other fields are stored as given |
| ServerModels.AppendKeepsEmailsUnique | server/src/models/User.js:5 | adding a user keeps e-mails unique exactly when the e-mail is not taken |
| ServerModels.AppendWithoutGoogleId | server/src/models/User.js:8 | a user without a Google id never breaks the sparse uniqueness of Google ids |
| TodoRoutes.CallerOf | server/src/routes/todos.js:8-21 | a caller is found only behind a "Bearer " prefix, and then it is whoever the token verifies as |
| TodoRoutes.CallerOfBearer | server/src/routes/todos.js:11-14 | "Bearer " followed by a token authenticates as the token's user |
| TodoRoutes.Given | server/src/routes/todos.js:44-45 | a missing or zero timestamp counts as absent |
| TodoRoutes.SyncedRecords | server/src/routes/todos.js:40-50 | the sync produces one record per item, in order, or fails when any item lacks a title |
| TodoRoutes.SyncResult | server/src/routes/todos.js:31-56 | other users' todos are untouched; the caller's todos become exactly the synced ones, or nothing with a 500 |
| TodoRoutes.SyncFailureLosesTodos | server/src/routes/todos.js:37-55 | one item without a title answers 500 after the caller's todos were already deleted |
| TodoRoutes.SyncMayStoreInconsistent | server/src/routes/todos.js:40-46 | sync can store a completed todo without completedAt |
| TodoRoutes.InsertByNewest | server/src/routes/todos.js:67 | inserting into a newest-first list keeps it newest-first and adds exactly the record |
| TodoRoutes.SortByNewest | server/src/routes/todos.js:67 | the result is sorted newest first and is a permutation of the input |
| TodoRoutes.FindOwned | server/src/routes/todos.js:114 | finds a todo with the id owned by the caller, or proves there is none |
| TodoRoutes.Patched | server/src/routes/todos.js:133-139 | only given fields change; completing stamps now and reopening clears the stamp; a blank title is ignored |
| TodoRoutes.PatchedConsistent | server/src/routes/todos.js:133-136 | an update that sets completed leaves completedAt set exactly when completed |
| TodoRoutes.UpdateResult | server/src/routes/todos.js:103-147 | a found todo is patched in place; a missing one gives 404 without a title, 500 with a blank title, and is created otherwise |
| TodoRoutes.UpdateKeepsOthers | server/src/routes/todos.js:103-147 | `PUT /:id` never changes another user's todos; a recreated todo is added after the caller's existing todos |
| TodoRoutes.DeleteResult | server/src/routes/todos.js:150-169 | other users' todos are untouched; a missing todo gives 404; otherwise exactly that todo is removed |
| TodoRoutes.DeleteRemovesExactly | server/src/routes/todos.js:158-164 | with distinct ids, deletion removes exactly the caller's todo with the id |
| TodoRoutes.TodoStore.Sync | server/src/routes/todos.js:24-57 | 401 without a caller, 400 without an array, otherwise the store becomes SyncResult; ids stay distinct |
| TodoRoutes.TodoStore.List | server/src/routes/todos.js:60-73 | the caller receives exactly their todos, newest first |
| TodoRoutes.TodoStore.Create | server/src/routes/todos.js:76-100 | 401 without a caller, 400 for a missing or blank title, otherwise one new todo with the trimmed title |
| TodoRoutes.TodoStore.Update | server/src/routes/todos.js:103-147 | 401 without a caller, otherwise the store becomes UpdateResult |
| TodoRoutes.TodoStore.Delete | server/src/routes/todos.js:150-169 | 401 without a caller, otherwise exactly the caller's todo with the id disappears |
| EmailService.NumberedLine | server/src/services/emailService.js:34 | a line is the 1-based position, ". " and the title |
| EmailService.NumberedLines | server/src/services/emailService.js:33-34 | one numbered line per title, in order |
| EmailService.TodoList | server/src/services/emailService.js:33-35 | no titles give "" and one title gives its line |
| EmailService.TodoListRoundTrip | server/src/services/emailService.js:33-35 | for single-line titles, the list splits back into exactly the numbered lines |
| EmailService.DisplayName | server/src/services/emailService.js:41 | the greeting name is never empty and is the user's name when one is given |
| EmailService.SubjectDeterminesCount | server/src/services/emailService.js:40 | the subject tells the number of pending todos |
| EmailService.ReminderMail | server/src/services/emailService.js:37-50 | the mail goes to the user from the configured SMTP user, with the subject and the plain-text body for the titles |
| EmailService.BodyDeterminesCount | server/src/services/emailService.js:41-50 | for one user, the body tells apart different numbers of pending todos and different numbered lists |
| EmailService.BodyDeterminesTitles | server/src/services/emailService.js:33-50 | when no title holds a newline, the body gives back the titles themselves, in order |
| EmailService.SendReminder | server/src/services/emailService.js:25-79 | nothing is sent without SMTP credentials; otherwise the result is the transport's verdict on the reminder mail |
| NotificationService.StartOfDay | server/src/services/notificationService.js:42-43 | local midnight is at most now, less than a day before it, and on the same day |
| NotificationService.Titles | server/src/services/notificationService.js:56 | the mail lists the pending titles in order |
| NotificationService.StampOwners | server/src/services/notificationService.js:61-64 | stamping changes only the given users' pending todos |
| NotificationService.RemindUser | server/src/services/notificationService.js:35-65 | a user's todos are stamped exactly when they are reminded, and otherwise nothing changes |
| NotificationService.Reached | server/src/services/notificationService.js:31-73 | a failing query stops the job before the users from that point on |
| NotificationService.StampKeepsPendingOfOthers | server/src/services/notificationService.js:61-64 | stamping one user never changes another user's pending todos |
| NotificationService.RemindsUnaffected | server/src/services/notificationService.js:33-65 | whether a user is reminded does not depend on earlier users' stamps |
| NotificationService.ScanCharacterised | server/src/services/notificationService.js:33-68 | after a pass, a user was reminded exactly when they qualified at the start, and only those users' pending todos are stamped |
| NotificationService.SecondRunSameDay | server/src/services/notificationService.js:45-64 | a user reminded once is not reminded again on the same day |
| NotificationService.StampedStaysReminded | server/src/services/notificationService.js:45-64 | after stamping, the user's pending todos count as reminded for the rest of the day |
| NotificationService.FailedSendStampsNothing | server/src/services/notificationService.js:59-65 | a failed send leaves all of that user's todos as they were |
| NotificationService.NoReminderWithoutPendingOrEmail | server/src/services/notificationService.js:40-50 | users without pending todos or without an e-mail are never reminded |
| NotificationService.RemindOne | server/src/services/notificationService.js:34-66 | one turn of the loop changes the store and reports a send exactly as that user's step of the pass specifies; ids stay distinct and the id counter is unchanged |
| NotificationService.CheckReminders | server/src/services/notificationService.js:26-73 | the loop leaves the store and the list of reminded users as the pass over the users it reached specifies; ids stay distinct |
| AuthRoutes.FindByEmail | server/src/routes/auth.js:49 | finds a user with the e-mail, or there is none |
| AuthRoutes.RegisterResult | server/src/routes/auth.js:13-40 | 400 without e-mail or password, 409 when the lowered e-mail is taken, otherwise one user with the lowered e-mail and hashed password is added and a token is returned |
| AuthRoutes.LoginResult | server/src/routes/auth.js:42-64 | 400 without e-mail or password, 401 for an unknown e-mail or wrong password, and a token only for a matching user |
| AuthRoutes.UnknownUserLikeWrongPassword | server/src/routes/auth.js:49-57 | an unknown e-mail and a wrong password get the same answer |
| AuthRoutes.LoginIgnoresCase | server/src/routes/auth.js:49 | logging in with differently cased e-mails gives the same answer |
| AuthRoutes.LoweredEmailsUnique | server/src/routes/auth.js:20-27 | stored lower-case e-mails stay distinct after lowering |
| AuthRoutes.RegisterKeepsUsersValid | server/src/routes/auth.js:20-30 | registration keeps e-mails unique and lower-case and ids distinct |
| AuthRoutes.RegisterThenLogin | server/src/routes/auth.js:13-64 | after registering, logging in with the same password and any casing of the e-mail succeeds for that user |
| AuthRoutes.RegisterTokenAuthorises | server/src/routes/auth.js:8-11 | the token returned by registration authenticates the new user on the todo API |
| AuthRoutes.UserTable.Register | server/src/routes/auth.js:13-40 | the table becomes RegisterResult and stays valid |
| AuthRoutes.UserTable.Login | server/src/routes/auth.js:42-64 | the answer is LoginResult and is either success or an error body |

## Left out

- React rendering, the DOM, `applyTheme`'s class toggling, the profile photo and the user profile card on the settings page: these are presentation, not state logic.
- Storage stores parsed JSON values. `JSON.parse` and `JSON.stringify` are abstracted as cells that are blank, malformed or hold a value, and `localStorage` exceptions are not modelled.
- Days are whole days from an epoch. `formatDateISO` is modelled as an injective key from a day, and time zones and the local calendar are not modelled.
- The HTML body of the reminder mail and the `POST /api/todos/test-email` route are not modelled. The test route only sends two fixed titles. The `from` header is modelled as the text built from the SMTP user.
- The nodemailer transport is a parameter `Mail -> bool`. The lazy creation of the transporter is not modelled: its outcome depends only on the configuration, which is a parameter too.
- The cron schedule is not modelled: one pass of the job is a method call with a single `now`. Time passing during a pass and concurrent passes are not modelled.
- NotificationService.CheckReminders: a failing database call is modelled only as the user query at position `failAt` aborting the pass. An `updateMany` that fails after a successful send is not modelled separately.
- JWT signing and verification, bcrypt hashing and comparison are parameters. Token expiry and the secret are not modelled.
- Text.ToLower: lowers only the ASCII and Latin-1 capitals. JavaScript's full Unicode case mapping is not modelled.
- String lengths are counted in characters, not in UTF-16 code units.
- Mongoose casting is not modelled:
  - non-string titles;
  - non-boolean `completed`;
  - malformed ObjectIds, which answer 500.
  Record ids are natural numbers handed out in order.
- The `updatedAt` timestamps that Mongoose adds are not modelled.
- `server/src/index.js:32` mounts only the auth router, and `client/src/App.jsx:104-114` renders stubs instead of the pages. The model describes the routers and pages themselves, as if they were mounted.
- TodoPage.TodoPageState.constructor: takes the stored list already as a list of todos. The read of the `todos` slot has no `Array.isArray` guard (`client/src/pages/TodoPage.jsx:28`), so a stored non-array makes `todos.filter` throw (`TodoPage.jsx:35`). That failure is not modelled.
- TodoPage.TodoPageState.ToggleTodo: keeps the activity ledger as a set of strings. The source re-reads the `activityDates` slot without a guard (`client/src/pages/TodoPage.jsx:55`): a stored string becomes the set of its characters, and a stored number or object throws. Neither case is modelled.
- Dashboard.Overview: takes the stored list already as a list of todos. The unguarded read of the `todos` slot (`client/src/pages/DashboardOverview.jsx:38`) and the throw of `todos.filter` on a non-array (`DashboardOverview.jsx:43`) are not modelled.
- StreakPage.LedgerOf: keeps only the string items of the stored array. `new Set(arr)` keeps every item (`client/src/pages/SteakPage.jsx:51`), and `toggleDay` writes them all back (`SteakPage.jsx:63`). The streak and membership of date keys do not depend on the other items.
- The `current` password field is never checked by the demo form. The model keeps it as a field and checks nothing about it either.
