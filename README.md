# Timely: a verified model of its core

Timely is a routine timer. A signed-in user keeps *stacks*: named lists of items, each
played in turn against a countdown. The server keeps a daily streak and usage counters
per user. A user signs in with a random 128-character token instead of a password.

This project models the parts of Timely that decide things:

- **User record** (module `UserModel`): the schema defaults and limits, the pre-save
  hook that hashes the token, and the daily streak update.
- **Stack record** (`StackModel`): the schema with its trimming setters, defaults and
  limits.
- **Sign-in** (`AuthController`): registration, login (a token-format check, then a
  first-match scan over the stored hashes), logout and the session check.
- **Session gate** (`AuthMiddleware`): the `auth` and `optionalAuth` middlewares.
- **Profile and shortcuts** (`UserController`): the partial profile update and the
  per-user shortcut list.
- **Stack handlers** (`StackController`): the order sort, item normalisation on
  create and update, the two-item order swap, session bookkeeping and pagination.
- **Request validators** (`Validation`): the rule chains and the routes they guard.
- **Client helpers** (`Helpers`): `formatTime`, `isValidToken`, `calculateStreak` and
  the avatar icons.
- **Timer hook** (`UseTimer`) and **player page** (`PlayerPage`).
- **Stack form** (`CreateStackModal`), **stack page** (`StackPage`), **dashboard
  filter** (`Dashboard`) and **streak card** (`StreakCard`).

Where the source changes state in place, the model is a Dafny `class`: the user
document, a middleware exchange, the timer, the player, the form and the stack page.
Its methods state the whole new state. Pure code (rule chains, filters, arithmetic)
becomes functions, with lemmas that relate them. JavaScript built-ins the code relies
on (`trim`, ASCII case mapping, `includes`, `padStart`) are in module `Text`.

Things outside the program become inputs:

- bcrypt's `hash` and `compare` are function-valued parameters.
- JWT verification and the user lookup are outcome datatypes.
- The random token is a parameter.
- Store errors, `window.confirm` and the result of a server call are parameters.
- Clock readings are `Timestamp` values: a local calendar-day number plus the
  milliseconds since that day's midnight.

## Model

| member | source | states |
|---|---|---|
| UserModel.NextStreak | backend/src/models/User.js:103-124 | A broken streak (never active, or last active before yesterday) restarts at 1. A second update on the same day changes nothing. Any other last-active day (yesterday, or after today) adds one. Every change records the full instant and raises `longest` to the maximum, so `current <= longest` is kept |
| UserModel.SameDayIdempotent | backend/src/models/User.js:114-116 | A second update on the same calendar day leaves the streak exactly as the first left it |
| UserModel.UpdatesKeepLongest | backend/src/models/User.js:122-123 | Once `current <= longest` holds, it holds after any sequence of updates |
| UserModel.ConsecutiveDaysExtend | backend/src/models/User.js:117-123 | Continuing from yesterday, updates on n consecutive days add exactly n to the streak, and `longest` is at least the new value |
| UserModel.ConsecutiveDaysFromBroken | backend/src/models/User.js:107-123 | From a broken or absent streak, updates on n consecutive days give a streak of exactly n |
| UserModel.StreakBranchMs | backend/src/models/User.js:107-116 | The branch the millisecond arithmetic takes: no last-active date means broken, equal midnights mean already today, and a later last-active midnight means consecutive |
| UserModel.FallBackBreaksStreak | backend/src/models/User.js:105-111 | On the day after the autumn clock change, an update made yesterday reads as a broken streak in milliseconds, while the calendar-day rule continues it (4 becomes 5) |
| UserModel.User.constructor | backend/src/models/User.js:26-59 | A new user has only its token. Avatar is 'avatar1', the streak 0/none/0, the stats zero, no shortcuts and no prefix; the document is new and its token marked modified |
| UserModel.User.UpdateStreak | backend/src/models/User.js:103-124 | The stored streak fields become `NextStreak` of the old ones at the given instant |
| UserModel.User.Save | backend/src/models/User.js:4-94 | Schema validation runs first: a refused document is left unchanged. Otherwise the token is replaced by its hash only for a new document or a modified token; a key clash is reported as a duplicate, and otherwise the document is stored and no longer new |
| UserModel.StoredShortcut | backend/src/models/User.js:61-73 | The stored key is the trimmed key upper-cased, and the stored text is the trimmed text |
| UserModel.StoredShortcutStable | backend/src/models/User.js:61-73 | Storing an already stored shortcut again changes nothing |
| UserModel.TrimOfUpperTrimmed | backend/src/models/User.js:64-65 | Upper-casing a trimmed key leaves it trimmed, so the key setters commute |
| StackModel.NewStack | backend/src/models/Stack.js:3-77 | Name, note and item texts are trimmed; duration defaults to 60, preferences to one vibration and 'ding'; a new stack is not archived, never played and has play count 0 |
| StackModel.NewStackOfTrimmed | backend/src/models/Stack.js:11-62 | Already trimmed values pass the setters unchanged |
| StackModel.DefaultsAreValid | backend/src/models/Stack.js:11-74 | A stack given only a non-blank name of at most 100 characters after trimming passes the schema |
| StackModel.TrimmedItemsValid | backend/src/models/Stack.js:47-62 | Items with an order and a non-blank text of at most 500 characters after trimming are stored valid, whatever white space surrounded them |
| AuthController.AuthCookieOptions | backend/src/controllers/auth.controller.js:7-26 | The cookie is HTTP-only with a max age of 604800000 ms, matching the JWT's seven days. It is secure and `sameSite=none` exactly in production, `lax` otherwise |
| AuthController.RegisterResponseFor | backend/src/controllers/auth.controller.js:44-63 | A stored user gives 201 with the raw token; the duplicate-key error gives 409 and any other failure 500 |
| AuthController.Register | backend/src/controllers/auth.controller.js:29-64 | As written: the new user lacks the required prefix, so every registration ends with 500 |
| AuthController.RegisterWithPrefix | backend/src/controllers/auth.controller.js:29-64 | With the prefix set to the token's first 16 characters, the user is stored with the token's hash and zeroed streak and stats. The raw token is returned once (201), or 409 on a prefix clash |
| AuthController.FindFirstMatch | backend/src/controllers/auth.controller.js:78-88 | Finds the first stored user in store order whose hash the token matches; none when no hash matches |
| AuthController.LoginViewOf | backend/src/controllers/auth.controller.js:104-113 | The login response carries the current streak only, and `hasProfile` exactly when a non-empty username is set |
| AuthController.Login | backend/src/controllers/auth.controller.js:67-121 | An absent token, or one not 128 characters long, gives 400 before any user is read; no match gives 401 with no user changed. On a match only that user's streak is updated and saved, without rehashing; the response is its projection, or 500 when the save is refused |
| AuthController.Logout | backend/src/controllers/auth.controller.js:124-127 | Logout clears the cookie and answers 200 |
| AuthController.CheckAuth | backend/src/controllers/auth.controller.js:130-147 | No attached user gives 401 (not authenticated); otherwise the answer is the user's id, name, avatar, current streak and stats, never the hash |
| AuthController.CheckAuthBehindOptionalAuth | backend/src/controllers/auth.controller.js:130-147 | Behind `optionalAuth` the session check reports authenticated exactly when the cookie verifies and its user exists |
| AuthMiddleware.AuthDecision | backend/src/middleware/auth.js:4-55 | Without a cookie: 401 and the cookie is left alone. A verified cookie whose user is gone: cookie cleared, 401. A bad signature, an expired token or any other failure: cookie cleared, and 401, 401 or 500. Only a verified cookie of an existing user passes: the user is attached and `next` is called exactly once |
| AuthMiddleware.OptionalAuthDecision | backend/src/middleware/auth.js:58-77 | Never answers and never clears the cookie; always calls `next` once. It attaches a user exactly when the cookie verifies and the user exists |
| AuthMiddleware.OptionalAgreesWithAuth | backend/src/middleware/auth.js:4-77 | The two middlewares attach the same user on every request |
| AuthMiddleware.Exchange.constructor | backend/src/middleware/auth.js:4-8 | A request starts with nothing attached, no answer and `next` not yet called |
| AuthMiddleware.Exchange.Auth | backend/src/middleware/auth.js:4-55 | The request and response fields change as `AuthDecision` says and no other way |
| AuthMiddleware.Exchange.OptionalAuth | backend/src/middleware/auth.js:58-77 | The request fields change as `OptionalAuthDecision` says and no other way |
| UserController.UpdateProfile | backend/src/controllers/user.controller.js:4-45 | The update validators run before the lookup: a username outside 2..30 characters after trimming gives 400 with nothing written, even when no user exists. Otherwise no user gives 404, and a found user gets only the fields present written, the username trimmed; streak, stats, shortcuts, hash, prefix and the save flags are kept |
| UserController.GetShortcuts | backend/src/controllers/user.controller.js:71-82 | The stored list, or the empty list when there is no user |
| UserController.RemoveKey | backend/src/controllers/user.controller.js:125 | The filter keeps exactly the entries with another key; it is shorter exactly when some entry had the key |
| UserController.RemoveKeyAppend | backend/src/controllers/user.controller.js:125 | The filter distributes over concatenation, so kept entries keep their relative order |
| UserController.FindKey | backend/src/controllers/user.controller.js:91 | The scan finds the key exactly when some entry has it |
| UserController.AppendKeepsUnique | backend/src/controllers/user.controller.js:91-102 | Appending an entry whose key is not taken keeps the keys unique |
| UserController.AddKeepsUnique | backend/src/controllers/user.controller.js:91-102 | For a trimmed key, the stored entry keeps the upper-cased key that was checked, so adding keeps the keys unique |
| UserController.SaveWithShortcuts | backend/src/controllers/user.controller.js:99-104 | The list is replaced and the user saved without rehashing; the save succeeds exactly when the schema accepts the new list |
| UserController.AddShortcut | backend/src/controllers/user.controller.js:84-115 | An existing upper-cased key gives 409 with nothing changed. Otherwise exactly one entry (upper-cased key, trimmed text) is appended after the unchanged ones: 201, or 500 when the save is refused |
| UserController.DeleteShortcut | backend/src/controllers/user.controller.js:117-143 | Every entry with the upper-cased key is removed and the others keep their order. Nothing removed gives 404 with nothing saved |
| StackController.InsertPermutes | backend/src/controllers/stack.controller.js:35 | One insertion step of the sort adds exactly one entry |
| StackController.InsertKeepsSorted | backend/src/controllers/stack.controller.js:35 | Inserting into a list sorted by order keeps it sorted |
| StackController.SortedSort | backend/src/controllers/stack.controller.js:35 | The order sort yields a list sorted by order (a missing order counts as 0) |
| StackController.SortPermutes | backend/src/controllers/stack.controller.js:35 | The order sort keeps the same entries |
| StackController.SortOfSorted | backend/src/controllers/stack.controller.js:35 | The sort is stable: a list already sorted by order is left as it is |
| StackController.GetStack | backend/src/controllers/stack.controller.js:21-43 | No stack of the caller gives 404. Otherwise the same stack comes back with the same entries, sorted by order |
| StackController.NormaliseItems | backend/src/controllers/stack.controller.js:99-104 | Submitted entries are numbered by position with trimmed texts; a missing text becomes '' |
| StackController.NormalisedIsSorted | backend/src/controllers/stack.controller.js:35 | Entries numbered by position are sorted, so the sort keeps the submitted order |
| StackController.CreatedStackFields | backend/src/controllers/stack.controller.js:50-62 | The stored document holds the defaulted values ('New Stack', '', 60, one vibration and 'ding', items numbered from 0, none unless an array), not archived and never played |
| StackController.CreatedNameTrimmed | backend/src/controllers/stack.controller.js:52 | The name handed to the schema is already trimmed |
| StackController.CreatedNoteTrimmed | backend/src/controllers/stack.controller.js:53 | The note handed to the schema is already trimmed |
| StackController.CreatedItemsTrimmed | backend/src/controllers/stack.controller.js:56-61 | The item texts handed to the schema are already trimmed |
| StackController.CreateStack | backend/src/controllers/stack.controller.js:46-87 | The built document is stored (201) exactly when the schema accepts it; otherwise 400 |
| StackController.CreatedItemsComeBackInOrder | backend/src/controllers/stack.controller.js:21-87 | A created stack is read back by `getStack` unchanged, with its items in the submitted order |
| StackController.ApplyUpdate | backend/src/controllers/stack.controller.js:90-110 | Every field present in the body is replaced, including `playCount` and `lastPlayed`, which no validator guards. Name, note and texts are trimmed and items renumbered. The owner and every absent field are kept |
| StackController.ApplyUpdateKeepsValid | backend/src/controllers/stack.controller.js:90-110 | An update that passes the update validators keeps a valid stack valid |
| StackController.UpdateStack | backend/src/controllers/stack.controller.js:90-132 | An invalid body gives 400 before the lookup, even for another user's stack; then no stack gives 404; otherwise the updated document, with the same owner |
| StackController.SwapOrders | backend/src/controllers/stack.controller.js:192-194 | The two entries exchange their order values, using the index when an order is missing. Texts and every other entry are unchanged |
| StackController.SwapOrdersPermutes | backend/src/controllers/stack.controller.js:192-194 | The multiset of effective orders is preserved, and swapping an entry with itself changes nothing |
| StackController.UpdateItemOrder | backend/src/controllers/stack.controller.js:162-207 | No stack gives 404; a missing, negative or out-of-range index gives 400, with nothing changed or stored. Otherwise the orders are swapped in the loaded array and the stack saved. After a successful save the store keeps the swapped, unsorted list; only the loaded array is then sorted by order and returned as the reply. A refused save gives 500 and stores nothing |
| StackController.SwapInPlace | backend/src/controllers/stack.controller.js:192-194 | The in-place swap statements yield `SwapOrders`, also when both indices are equal |
| StackController.Renumber | backend/src/controllers/stack.controller.js:56-61 | Numbering by position keeps the texts and yields a sorted list |
| StackController.StoredPositionsAreNotViewPositions | backend/src/controllers/stack.controller.js:184-194 | After one swap the shown order is c, b, a. Asking to exchange shown positions 0 and 1 then shows c, a, b, not the expected b, c, a |
| StackController.SwapInView | backend/src/controllers/stack.controller.js:184-200 | The swap addressed by shown positions yields a list numbered by position |
| StackController.SwapInViewExchangesShownEntries | backend/src/controllers/stack.controller.js:184-200 | After that swap, the shown list is the previous shown list with the two chosen positions exchanged |
| StackController.Played | backend/src/controllers/stack.controller.js:225-227 | A played stack has one more play and was last played now, with everything else kept |
| StackController.SaveSession | backend/src/controllers/stack.controller.js:210-258 | A stack that is not the caller's gives 404 with nothing touched. Otherwise the stack's play count and time are saved first. Then the user's stats grow by one session, the posted duration and the completed count, the streak is updated and the user saved |
| StackController.Paginate | backend/src/controllers/stack.controller.js:261-287 | The limit defaults to 20 and the page to 1; `(page - 1) * limit` records are skipped; the page count is undefined exactly for a zero limit |
| StackController.SkipSign | backend/src/controllers/stack.controller.js:267 | The skip is negative exactly when the page is below 1 with a positive limit, or above 1 with a negative limit |
| StackController.GetSessions | backend/src/controllers/stack.controller.js:261-287 | A negative skip is refused by the store and answered with 500, exactly for those pages and limits; otherwise the page with its pagination object and a non-negative skip |
| StackController.PagesCoverTotal | backend/src/controllers/stack.controller.js:279 | With a positive limit, `ceil(total / limit)` pages hold all records with a non-empty last page, and there are no pages exactly when there are no records |
| StackController.PageHasRecords | backend/src/controllers/stack.controller.js:267-279 | A page holds records exactly when its number is at most the page count |
| Validation.Validate | backend/src/middleware/validation.js:4-21 | `next` is called exactly when no rule failed; otherwise 400 with every failure |
| Validation.RegisterErrors | backend/src/middleware/validation.js:24-39 | A present username after trimming fails the length (2..30) and the alphabet (letters, digits, '_', '-', space) separately. A present avatar must be 'avatar' and a positive number without leading zeros; the body passes exactly when all hold |
| Validation.RegisterPassKeepsProfileValid | backend/src/middleware/validation.js:24-39 | A profile body the validator passes reaches `updateProfile` with a username inside the schema's limits and a well-formed avatar |
| Validation.NumberedAvatarsPass | backend/src/middleware/validation.js:33-38 | 'avatar' followed by any positive number is accepted |
| Validation.AvatarExamples | backend/src/middleware/validation.js:33-38 | 'avatar13' passes; 'avatar0', 'avatar01' and a bare 'avatar' fail |
| Validation.EntryErrors | backend/src/middleware/validation.js:65-71 | An entry is reported as missing exactly when its trimmed text is empty, and as too long exactly when it exceeds 500 characters |
| Validation.ItemTextErrorsEmpty | backend/src/middleware/validation.js:65-71 | The item rule reports nothing exactly when every entry passes |
| Validation.ItemErrorsByIndex | backend/src/middleware/validation.js:65-71 | Entry i is reported under its own path exactly when it fails, and entries outside the list are never reported |
| Validation.TrimmedTextsNormaliseAlike | backend/src/middleware/validation.js:65-71 | The sanitizer does not change what the controllers store for the entries |
| Validation.ItemRuleMatchesSchema | backend/src/middleware/validation.js:65-71 | The sanitized entries pass the rule exactly when the renumbered list satisfies the schema's item rules |
| Validation.NoteErrors | backend/src/middleware/validation.js:49-53 | The note fails exactly when it is longer than 500 characters |
| Validation.DurationErrors | backend/src/middleware/validation.js:55-58 | A present duration fails exactly when it lies outside 5..3600 |
| Validation.ItemsErrors | backend/src/middleware/validation.js:60-71 | A present `items` that is not an array is reported; the field passes exactly when it is absent or all entries pass |
| Validation.StackErrors | backend/src/middleware/validation.js:41-72 | The name is required: missing or empty after trimming is reported as required. The body passes exactly when the name is valid and note, duration and items pass |
| Validation.UpdateStackErrors | backend/src/middleware/validation.js:74-106 | The same rules with the name optional: it is reported as empty exactly when present and empty |
| Validation.StackChainIsStricter | backend/src/middleware/validation.js:41-106 | Whatever `stackValidation` passes, `updateStackValidation` passes; on a body with a name they agree |
| Validation.NamelessBodyRefused | backend/src/middleware/validation.js:42-47 | A body without a name is refused as 'Stack name is required', whatever else it holds |
| Validation.ValidatedCreateFields | backend/src/routes/stack.routes.js:22 | A body `stackValidation` passes gives `createStack` a valid name, note, duration and item list |
| Validation.PostStackStoresValidated | backend/src/routes/stack.routes.js:22 | A body the route passes is stored exactly when its preferences, after the defaults, are valid |
| Validation.ValidatedUpdateFields | backend/src/middleware/validation.js:74-106 | Every field `updateStackValidation` passes also passes the update validators after the sanitizers |
| Validation.SanitizedUpdateValid | backend/src/middleware/validation.js:74-106 | Such a body fails the update validators only on out-of-range preferences |
| Validation.PatchStackPassesUpdateValidators | backend/src/routes/stack.routes.js:23 | Routed through `updateStackValidation`, a PATCH is refused by the update validators only for its preferences |
| Validation.ArchiveToggleRefused | backend/src/routes/stack.routes.js:23 | As routed, the archive toggle's body has no name and is always refused with 'Stack name is required' |
| Validation.ArchiveToggleApplied | backend/src/routes/stack.routes.js:23 | Routed through `updateStackValidation`, the toggle changes the archive flag and nothing else |
| Validation.ShortcutErrors | backend/src/middleware/validation.js:108-123 | The key must be 1..3 capital letters and the text non-empty and at most 200; an empty key fails both key rules |
| Validation.ShortcutPassStoresAsSent | backend/src/middleware/validation.js:108-123 | After the validator the key is trimmed and upper-case, so the controller's upper-casing and the schema's setters change nothing. The entry stored is the one sent, within the schema's limits |
| Helpers.FormatTime | frontend/src/utils/helpers.js:2-6 | Minutes and seconds separated by a colon, each zero-padded to two digits; the seconds are below 60, and below 6000 seconds the result has five characters |
| Helpers.FieldIsPadStart | frontend/src/utils/helpers.js:5 | Each field is the number's decimal form padded to two digits with '0' |
| Helpers.FormatTimeRoundTrip | frontend/src/utils/helpers.js:2-6 | Reading the clock string back gives the number of seconds it was made from |
| Helpers.FormatTimeInjective | frontend/src/utils/helpers.js:2-6 | Different durations are shown differently |
| Helpers.TokenChecksAgree | frontend/src/utils/helpers.js:89-91 | Every generated token passes the client's check, and every token the client passes, the server's format check passes too |
| Helpers.ServerSkipsHexCheck | backend/src/controllers/auth.controller.js:71 | 128 'g' characters pass the server's format check but not the client's |
| Helpers.CalculateStreak | frontend/src/utils/helpers.js:94-107 | 0 without a last-active date; 1 exactly when the last activity was today or yesterday; otherwise 0 |
| Helpers.ClientStreakMatchesServer | frontend/src/utils/helpers.js:94-107 | For a past last-active day, the client shows a live streak exactly when the server's next update would continue it |
| Helpers.ClientSeesUpdatedStreak | frontend/src/utils/helpers.js:94-107 | Right after the server's update, the client shows a live streak |
| Helpers.AvatarIconsAccepted | frontend/src/utils/helpers.js:30-43 | Every avatar key the client offers passes the profile validator, and the schema's default avatar is among them |
| UseTimer.EndVibration | frontend/src/hooks/useTimer.js:66-68 | The end pattern is the first min(v, 3) entries of 100, 50, 100, and empty for no vibrations |
| UseTimer.EndVibrationPulses | frontend/src/hooks/useTimer.js:67 | Any positive setting gives one or two pulses: 2 gives one, 5 gives two |
| UseTimer.Pulsed | frontend/src/components/dashboard/CreateStackModal.jsx:62-70 | `count` pulses of `on` ms separated by `off` ms: 2·count−1 entries starting and ending with a pulse |
| UseTimer.IntendedEndVibration | frontend/src/hooks/useTimer.js:66-68 | A pattern with as many pulses as the vibration setting |
| UseTimer.EndVibrationAgreesOnlyForOne | frontend/src/hooks/useTimer.js:67 | The written pattern agrees with that intended pattern exactly when the setting is at most 1 |
| UseTimer.Timer.constructor | frontend/src/hooks/useTimer.js:4-17 | Time left and total are the initial duration, running as `autoStart` says, not complete |
| UseTimer.Timer.End | frontend/src/hooks/useTimer.js:61-82 | Stops, marks complete and calls `onComplete` once; the times are kept |
| UseTimer.Timer.Tick | frontend/src/hooks/useTimer.js:39-53 | While running with time left: one second less, or at the last second zero, stopped and complete with `onComplete` called once. Otherwise nothing changes |
| UseTimer.Timer.Reset | frontend/src/hooks/useTimer.js:106-113 | Stopped and not complete, with the given duration (default: the initial one) as both time left and total |
| UseTimer.Timer.Start | frontend/src/hooks/useTimer.js:84-92 | A completed timer is reset to the initial duration first; then it runs |
| UseTimer.Timer.Pause | frontend/src/hooks/useTimer.js:94-96 | Only stops the timer |
| UseTimer.Timer.Toggle | frontend/src/hooks/useTimer.js:98-104 | Pauses a running timer; starts a stopped one, resetting it first when complete |
| UseTimer.Timer.AdjustTime | frontend/src/hooks/useTimer.js:115-121 | Time left becomes max(1, time left + s), while the total moves by the full s |
| UseTimer.Timer.SetDuration | frontend/src/hooks/useTimer.js:123-132 | A missing or non-positive value is ignored; otherwise it becomes both time left and total |
| UseTimer.Timer.Skip | frontend/src/hooks/useTimer.js:134-138 | Ends the timer only while there is time left |
| UseTimer.Timer.Elapse | frontend/src/hooks/useTimer.js:39-53 | n ticks of a running timer: n seconds less while time remains, otherwise zero, stopped and complete with `onComplete` called exactly once |
| PlayerPage.TotalAppend | frontend/src/pages/PlayerPage.jsx:175 | The duration sum of a concatenation is the sum of the sums |
| PlayerPage.TotalBounds | frontend/src/pages/PlayerPage.jsx:175 | With non-negative durations, the sum is at least every single duration |
| PlayerPage.Player.constructor | frontend/src/pages/PlayerPage.jsx:69-87 | After loading: first item, paused, nothing completed, the stack's duration as time left and total, its preferences as settings |
| PlayerPage.Player.Advance | frontend/src/pages/PlayerPage.jsx:104-119 | Records the current item with the time it ran, moves exactly one item on and restarts the clock at the total |
| PlayerPage.Player.Finish | frontend/src/pages/PlayerPage.jsx:158-197 | Stops and posts every completed item plus the current one, with their summed duration. After a delivered post, the local stats gain one session, that sum and that item count, and the completion view opens |
| PlayerPage.Player.EndItem | frontend/src/pages/PlayerPage.jsx:101-124 | Before the last item it advances; on the last it finishes, so the index never passes the last item |
| PlayerPage.Player.Skip | frontend/src/pages/PlayerPage.jsx:126-143 | Ends the current item with the time it has been running, advancing or finishing as above |
| PlayerPage.Player.TickAsWritten | frontend/src/pages/PlayerPage.jsx:41-51 | As written: the end handler sees one second left, so an item whose clock ran down is recorded as one second short |
| PlayerPage.Player.Tick | frontend/src/pages/PlayerPage.jsx:41-51 | While playing: one second less; at the last second the item is recorded with its whole duration and the player advances or finishes |
| PlayerPage.Player.PlayOutAsWritten | frontend/src/pages/PlayerPage.jsx:41-124 | Running a fresh item down as written takes `total` ticks but records `total − 1` seconds |
| PlayerPage.Player.PlayOut | frontend/src/pages/PlayerPage.jsx:41-124 | With the corrected tick, running an item down records exactly the ticks it took |
| PlayerPage.Player.AdjustTime | frontend/src/pages/PlayerPage.jsx:145-149 | Time left becomes max(5, time left + s), while the total moves by the full s |
| PlayerPage.Player.TogglePlay | frontend/src/pages/PlayerPage.jsx:151-156 | Flips playing and changes nothing else |
| PlayerPage.Player.Restart | frontend/src/pages/PlayerPage.jsx:199-206 | Back to the first item, nothing completed, paused, completion view closed, time left equal to the total |
| CreateStackModal.ItemErrors | frontend/src/components/dashboard/CreateStackModal.jsx:112-118 | One error per bad item, keyed by its index: blank if blank, else too long. There is no error exactly when every item passes |
| CreateStackModal.FieldErrors | frontend/src/components/dashboard/CreateStackModal.jsx:98-110 | Name blank or longer than 100, note longer than 500, and duration outside 5..3600 are each reported under their own key |
| CreateStackModal.FormErrors | frontend/src/components/dashboard/CreateStackModal.jsx:95-122 | Each field and item error is present exactly when its rule fails; the map is empty exactly when the form is valid |
| CreateStackModal.TrimAll | frontend/src/components/dashboard/CreateStackModal.jsx:137 | Every item text trimmed, in order |
| CreateStackModal.FormValidPassesServer | frontend/src/components/dashboard/CreateStackModal.jsx:124-141 | A body the form submits passes `stackValidation` on the server |
| CreateStackModal.PaddedNameOnlyRefusedByForm | frontend/src/components/dashboard/CreateStackModal.jsx:100 | A 100-letter name with a trailing space is refused by the form (raw length) but passes the server (trimmed length) |
| CreateStackModal.EditFormAsWritten | frontend/src/components/dashboard/CreateStackModal.jsx:35-42 | As written: a stack with 0 vibrations opens in the form with 1 |
| CreateStackModal.EditForm | frontend/src/components/dashboard/CreateStackModal.jsx:35-42 | The form opens with the stack's own name, duration, vibrations, sound and item texts |
| CreateStackModal.EditRoundTrip | frontend/src/components/dashboard/CreateStackModal.jsx:35-42 | Opening a valid stack and submitting it unchanged keeps its duration and preferences. As written, the preferences survive exactly when vibrations are not 0 |
| CreateStackModal.StackForm.constructor | frontend/src/components/dashboard/CreateStackModal.jsx:25-32 | An empty form: 60 seconds, one vibration, 'ding', no items, no errors |
| CreateStackModal.StackForm.Load | frontend/src/components/dashboard/CreateStackModal.jsx:35-56 | Editing fills the form from the stack as written; otherwise the form is reset |
| CreateStackModal.StackForm.AddItem | frontend/src/components/dashboard/CreateStackModal.jsx:79-81 | One empty item at the end |
| CreateStackModal.StackForm.RemoveItem | frontend/src/components/dashboard/CreateStackModal.jsx:83-87 | Removes exactly item i and keeps the others in order; an index past the end changes nothing |
| CreateStackModal.StackForm.ChangeItem | frontend/src/components/dashboard/CreateStackModal.jsx:89-93 | Changes the text of that item only |
| CreateStackModal.StackForm.ValidateForm | frontend/src/components/dashboard/CreateStackModal.jsx:95-122 | Stores the errors and passes exactly when the form is valid |
| CreateStackModal.StackForm.Submit | frontend/src/components/dashboard/CreateStackModal.jsx:124-141 | Submits only a valid form: name, note and item texts trimmed, items in order |
| CreateStackModal.TestVibration | frontend/src/components/dashboard/CreateStackModal.jsx:62-70 | Nothing for 0; otherwise v pulses of 200 ms with 100 ms gaps |
| StackPage.Without | frontend/src/components/stack/StackPage.jsx:102 | The filter keeps only items with another id, all from the input; with no match it keeps the list as it is |
| StackPage.WithoutDistributes | frontend/src/components/stack/StackPage.jsx:102 | The filter distributes over concatenation, so kept items keep their relative order |
| StackPage.WithoutCounts | frontend/src/components/stack/StackPage.jsx:102 | Every item with the id is removed, and every other item is kept as often as it occurred |
| StackPage.Renumbered | frontend/src/components/stack/StackPage.jsx:105-108 | Ids and texts are kept and each order becomes the item's position |
| StackPage.RenumberedNumbered | frontend/src/components/stack/StackPage.jsx:105-108 | Renumbering a list already numbered by position changes nothing |
| StackPage.FirstWithId | frontend/src/components/stack/StackPage.jsx:81 | The first position with that id, or none exactly when no item has it |
| StackPage.WithShortcut | frontend/src/components/stack/StackPage.jsx:150 | The typed text, a line break only when something was typed, then the shortcut |
| StackPage.WithoutKey | frontend/src/components/stack/StackPage.jsx:164 | Exactly the shortcuts with another key are kept |
| StackPage.Page.constructor | frontend/src/components/stack/StackPage.jsx:16-50 | The loaded items and shortcuts, nothing typed, nothing selected, nothing sent |
| StackPage.Page.AddItem | frontend/src/components/stack/StackPage.jsx:52-76 | Blank text adds nothing. Otherwise one item with the trimmed text and the previous item count as its order is appended, the input cleared and closed, and the list sent |
| StackPage.Page.EditItem | frontend/src/components/stack/StackPage.jsx:78-95 | Only the text of the first item with the id changes; an unknown id changes and sends nothing |
| StackPage.Page.DeleteItem | frontend/src/components/stack/StackPage.jsx:97-119 | On confirmation, every item with the id is removed, the rest renumbered from 0, and the list sent; otherwise nothing happens |
| StackPage.Page.SelectItem | frontend/src/components/stack/StackPage.jsx:121-129 | With nothing selected the argument becomes the selection (null leaves it empty); otherwise a swap of (selected, argument) is requested, null included, and the selection cleared |
| StackPage.DeselectSwapRefused | frontend/src/components/stack/StackItemCard.jsx:44 | Clicking the selected card again sends a swap with a null second index, which the server's index check refuses; a request with two indices passes exactly when both are within the list |
| StackPage.Page.ShortcutSelect | frontend/src/components/stack/StackPage.jsx:148-155 | While adding, the shortcut joins the typed text on a new line; otherwise it replaces the text and the input opens |
| StackPage.Page.AddShortcut | frontend/src/components/stack/StackPage.jsx:157-159 | The new shortcut goes last |
| StackPage.Page.DeleteShortcut | frontend/src/components/stack/StackPage.jsx:161-168 | Only after the server confirmed are the shortcuts with that key dropped |
| StackPage.DeleteUnknownIdKeepsList | frontend/src/components/stack/StackPage.jsx:97-108 | Deleting an id no item of a numbered list has leaves the list as it is |
| StackPage.NewItemsShareMissingId | frontend/src/components/stack/StackPage.jsx:57-62 | Items added on the page have no id: an edit by the missing id reaches the first of them, and a delete removes them all |
| Dashboard.FilteredStacks | frontend/src/pages/Dashboard.jsx:90-101 | A stack is kept exactly when both the search and the archive filter keep it |
| Dashboard.FilterDistributes | frontend/src/pages/Dashboard.jsx:90 | The filter distributes over concatenation, so the result keeps the original order |
| Dashboard.EmptyTermMatches | frontend/src/pages/Dashboard.jsx:92-93 | An empty search term matches every stack |
| Dashboard.NoFilterShowsAll | frontend/src/pages/Dashboard.jsx:96-98 | With an empty term and a filter other than 'archived' or 'active', every stack is shown in order |
| Dashboard.ViewsPartition | frontend/src/pages/Dashboard.jsx:96-100 | The 'archived' and 'active' views split the matching stacks, and together they are the 'all' view |
| Dashboard.ToggleBody | frontend/src/pages/Dashboard.jsx:79-83 | The toggle sends only the negation of the stack's archive flag |
| Dashboard.ListedAsWritten | backend/src/controllers/stack.controller.js:10 | As written, the listing keeps name and note but carries no archive flag |
| Dashboard.ListedWithFlag | backend/src/controllers/stack.controller.js:10 | With the flag selected, the listing reports the stack's archive flag |
| Dashboard.ArchivedViewEmptyAsWritten | frontend/src/pages/Dashboard.jsx:96-98 | As written, the 'archived' view is always empty and the toggle always sends 'archive' |
| Dashboard.ArchivedViewShowsArchived | frontend/src/pages/Dashboard.jsx:79-98 | With the flag listed, the 'archived' view shows exactly the archived stacks that match. The toggle, routed through `updateStackValidation`, flips the stored flag |
| Dashboard.ProfileSetupUntilNamed | frontend/src/pages/Dashboard.jsx:23-31 | Profile setup opens for a signed-in user without a name, never once a valid name is set, and never without a user |
| StreakCard.JsRem | frontend/src/components/dashboard/StreakCard.jsx:6 | JavaScript's `%`: the remainder takes the dividend's sign |
| StreakCard.TimeSplitBounds | frontend/src/components/dashboard/StreakCard.jsx:5-6 | For a non-negative total, minutes are below 60, and hours·3600 + minutes·60 is at most the total and less than a minute below it |
| StreakCard.FirstAbove | frontend/src/components/dashboard/StreakCard.jsx:10 | The first milestone above the streak, or none exactly when none is above it |
| StreakCard.FirstAboveIsSmallest | frontend/src/components/dashboard/StreakCard.jsx:10 | In an ascending list the first entry above the streak exists whenever some entry is above it, and is not above any such entry |
| StreakCard.NextMilestoneIsSmallestAbove | frontend/src/components/dashboard/StreakCard.jsx:9-10 | Below 100 the next milestone is the smallest milestone above the streak; from 100 on it is 100 |
| StreakCard.ProgressBounds | frontend/src/components/dashboard/StreakCard.jsx:11 | Progress lies in 0..100: 0 without a streak, positive with one, 100 from 100 days on |
| StreakCard.MotivationLevel | frontend/src/components/dashboard/StreakCard.jsx:14-21 | One of the six messages |
| StreakCard.MotivationFollowsMilestones | frontend/src/components/dashboard/StreakCard.jsx:14-21 | Over non-negative streaks the message only moves forward. After the first day it changes exactly on reaching 3, 7, 14 or 30 |
| StreakCard.BadgeAgrees | frontend/src/components/dashboard/StreakCard.jsx:97-102 | The 'Today' badge, the progress bar and the message agree on whether there is a streak |

## Left out

- Mongoose persistence is not modelled. Queries, ObjectId casting, `populate`, `createdAt` and the timestamps are replaced by values passed in and out. The store's duplicate-key check is a boolean parameter of `Save`.
- bcrypt is not modelled. `hash` and `compare` are function parameters, and the salt is hidden inside `hash`.
- JWT signing and verification are not modelled: verification is an outcome datatype.
- Random token generation is not modelled: the token is a parameter that is required to be 128 lower-case hexadecimal characters.
- Express wiring, CORS, helmet, rate limiting and server start-up are not modelled. Only which validator guards which route is kept, in `Validation.PostStack`, `Validation.PatchStack` and `Validation.PatchStackAsWritten`.
- JSON values of the wrong type are not modelled: a number where a string is expected, a non-integer duration, `NaN` from `parseInt`. An `items` value that is not an array is kept as `NotAnArray`. An `updateStack` body whose `items` is not an array is not modelled.
- The `details` list of a refused request: the model fixes which failures it holds and their message strings (`Validation.Message.Text`), not their exact order.
- Validation.ItemTextErrors: lists an items chain's failures entry by entry. express-validator runs each validator of a wildcard chain over every entry before the next validator, so all `notEmpty` failures come before all `isLength` failures.
- Case mapping (`Text.Upper`, `Text.Lower`) covers ASCII letters only. Lengths count characters, not UTF-16 code units.
- A stored item without an `order` sorts as 0; the schema requires one.
- Concurrent requests are not modelled, so lost updates of the streak and stats are not either. Persisted state and in-memory state are the same object here, except in `StackController.UpdateItemOrder` and `StackController.SaveSession`, which return what the store keeps as `stored`.
- backend/src/models/Session.js is not modelled: it is a plain record with required fields only, and `saveSession` stores it without further rules.
- deleteStack, getStats, getStacks' sort by creation date, and the stack and session listing routes other than pagination are not modelled. They only pass data to and from the store.
- `calculateStreak` is modelled on calendar days, so the client side has no daylight-saving effect.
- React timing is not modelled: intervals, the 500 ms advance delay, StrictMode's double effects and stale closures (beyond the one in `PlayerPage.Player.TickAsWritten`).
- Sound, vibration calls, clipboard, `debounce`, `getRandomAvatar`, locale date formatting and navigation are not modelled. The vibration patterns are computed but not played.
- PlayerPage.Player.constructor: requires a stack with at least one item; the page does not handle an empty stack.
- The player's `settings.volume` and `muted` are not modelled: they only affect sound.
- StreakCard.ProgressBounds: progress is a real number, and only its bounds are stated; floating-point rounding is not modelled.
- StreakCard.TimeSplitBounds: states the bounds only for a non-negative total. For a negative total the minutes follow JavaScript's `%` in `StreakCard.JsRem`, with no lemma about them.
- Helpers.AvatarIconsAccepted: states that every key is an accepted avatar name and that 'avatar1' is present, not that the keys are exactly avatar1 to avatar12.
- StackPage: the refetch after a failed server call is not modelled; the page's copy of the items is kept as the handler left it.
- StackPage: the server's reply to a swap replaces the list. That reply is `StackController.UpdateItemOrder`, which is not composed with the page here.
- StackPage: the page's `push` onto the items array it shares with the previous state is modelled as a new list.
- StackPage: `window.confirm` is the `confirmed` parameter, and the outcome of the delete call is the `deleted` parameter.
- Dashboard: `handleCreateStack`, `handleDeleteStack`, `handleEditStack` and the view mode are not modelled. They only call the server or switch views.
- AuthContext, api.js and LoginModal are not modelled. LoginModal's only rule is `isValidToken`, in `Helpers.TokenChecksAgree`.

## Findings

| source | as written | input that shows it | evidently intended | confidence | as-written member | corrected member |
|---|---|---|---|---|---|---|
| backend/src/controllers/auth.controller.js:35-39 | The new user is given only `hashedToken`; `tokenPrefix` is required (backend/src/models/User.js:12-17), so schema validation refuses the save and register answers 500 | Any registration with a fresh 128-character token | Set `tokenPrefix` to the token's first 16 characters, then store the user and return 201 | not executed | AuthController.Register | AuthController.RegisterWithPrefix |
| backend/src/models/User.js:107-111 | "Yesterday" is today's local midnight minus 86400000 ms. After the autumn daylight-saving change, yesterday's midnight is 25 hours back, so it reads as a broken streak | A streak of 4 last updated yesterday, updated on the day after the clocks go back | Compare calendar days: the streak continues to 5 | not executed | UserModel.FallBackBreaksStreak | UserModel.NextStreak |
| backend/src/controllers/stack.controller.js:184-194 | The swap addresses positions in the stored array. The stack page sends positions in the order-sorted list `getStack` returns (stack.controller.js:35, frontend/src/components/stack/StackPage.jsx:131-136) | Items a, b, c; swap 0 and 2, then 0 and 1: c, a, b is shown instead of b, c, a | Exchange the two shown entries of the sorted list | not executed | StackController.StoredPositionsAreNotViewPositions | StackController.SwapInViewExchangesShownEntries |
| backend/src/routes/stack.routes.js:23 | PATCH /stacks/:id is guarded by `stackValidation`, whose name rule is required (backend/src/middleware/validation.js:42-47). A body without a name is refused: the dashboard's archive toggle, and the stack page's item edits, which send only `items` | `{ isArchived: true }` | Guard the route with `updateStackValidation`, written for it | not executed | Validation.ArchiveToggleRefused | Validation.ArchiveToggleApplied |
| backend/src/controllers/stack.controller.js:10 | `getStacks` selects `name note items defaultDuration preferences lastPlayed playCount` but not `isArchived`, so the dashboard's 'archived' view (frontend/src/pages/Dashboard.jsx:96-98) is always empty and its toggle always sends `isArchived: true` (Dashboard.jsx:81-83) | Any stack with `isArchived` true | Select `isArchived` as well | not executed | Dashboard.ArchivedViewEmptyAsWritten | Dashboard.ArchivedViewShowsArchived |
| frontend/src/pages/PlayerPage.jsx:41-51 | The tick calls the end handler inside the state updater, where the handler still sees one second left, so a run-down item is recorded as `totalDuration - 1` | An item of 60 s played to the end is posted as 59 s | Record the whole duration | not executed | PlayerPage.Player.PlayOutAsWritten | PlayerPage.Player.PlayOut |
| frontend/src/hooks/useTimer.js:67 | `[100, 50, 100].slice(0, vibrations)` takes entries, not pulses, and never more than three, so there are at most two pulses, and 2 vibrations give one pulse (also frontend/src/pages/PlayerPage.jsx:64) | vibrations = 2 gives `[100, 50]`, one pulse | One pulse per vibration | not executed | UseTimer.EndVibrationPulses | UseTimer.IntendedEndVibration |
| frontend/src/components/dashboard/CreateStackModal.jsx:40 | The logical-or default `vibrations or 1` turns a stored 0 (silent, allowed by the schema) into 1 when the stack is edited | A stack with 0 vibrations, opened and saved unchanged, comes back with 1 | Keep 0, defaulting only a missing value (`??`) | not executed | CreateStackModal.EditFormAsWritten | CreateStackModal.EditForm |
