# vocal_training_bot — a Dafny model of its dialog, menu and notification core

vocal_training_bot is a Telegram bot for vocal training. Users register through a survey. They get a
main menu, reminders of their warm-up exercises, and paid warm-up collections. Admins edit the content.
This project models the bot's core in Dafny and proves properties of the model:

- **StateStore** (`store.dfy`, BotExt/db.go): the per-user `states` record. It holds the current
  dialog state, a bag of string variables and the id of the last menu message.
- **DialogEngine** (`fsm.dfy`, BotExt/FSM.go): the registry of dialog states. States are registered
  as a chain or as a one-shot step. `Trigger` and `Update` run validation, the manipulator, the
  move to the next state and the reset.
- **RowLayout / ReplyMenu / InlineMenus** (`rowlayout.dfy`, `reply_menu.dfy`, `inline_menu.dfy`,
  BotExt/ReplyMenuBuilder.go and BotExt/InlineMenuBuilder.go): keyboards packed in rows with a
  row-break sentinel. Inline menus hold static or computed captions, or buttons fetched per user,
  and they re-render a stored message.
- **Notifications** (`notification.dfy`, notification_service.go): the queue of reminder times.
  It covers the next-occurrence computation for weekly slots with a per-user offset, and the tick
  that fires due reminders and re-queues them.
- **UserStates, UserMenus, UserApi** (`user_states.dfy`, `user_menus.dfy`, `user_api.dfy`): the
  user-side survey and settings, the reminder and warm-up menus, and the callback and checkout
  routing.
- **AdminApi, AdminStates** (`admin_api.dfy`, `admin_states.dfy`): admin routing and group
  changes, and the recording of warm-up content.
- **Middleware, UserGroups** (`middleware.dfy`, `groups.dfy`; restrict_middleware.go and
  middleware.go): black- and whitelisting by user group, and the logging middleware.
- **Text** (`text.dfy`): the string helpers the handlers rely on, such as `strconv.Atoi` /
  `Itoa`, `strings.Split`, `TrimSpace`, `ToLower`, UTF-8 length and 64-bit wrap-around.
- **The older generation**: FSM.go (`legacy_fsm.dfy`), states.go (`legacy_survey.dfy`), bot.go
  (`legacy_bot.dfy`) and helpers.go (`legacy_helpers.dfy`). These are the bot's first dialog
  engine, its survey states and keyboard helpers. They are modelled as written, beside corrected
  variants where they go wrong.

Each component is modelled in the form the Go code takes:
- Objects whose methods update fields are classes, and their methods are proved against
  specification functions.
- Pure logic is functions and lemmas.
- Database and Telegram calls are parameters. Where the handlers branch on a failed call, a flag
  says whether it succeeds; BotExt's own store and the Redis calls of `addUser` always succeed
  (see "Left out"). Messages handed to Telegram are returned as values.

## Model

In the table, "bar" is the vertical bar (U+007C) that separates the pieces of callback data, invoice payloads and user-list lines.

| member | source | states |
|---|---|---|
| StateStore.WriteState | BotExt/db.go:19-33 | the upsert creates a fresh row when needed and changes only the user's state column; other users' rows are untouched |
| StateStore.ReadState | BotExt/db.go:35-48 | the stored state name, or the empty name when the user has no row |
| StateStore.WriteVar | BotExt/db.go:66-77 | the variable is merged into an existing row's variables; without a row the table is unchanged |
| StateStore.ReadVar | BotExt/db.go:79-92 | no row reads as ("", true); a missing variable reads as ok false; a present one reads back its value |
| StateStore.ReadVars | BotExt/db.go:94-117 | the user's variables, or a nil map when there is no row |
| StateStore.ClearVars | BotExt/db.go:119-129 | an existing row's variables become empty; nothing else changes |
| StateStore.WriteMessageID | BotExt/db.go:133-145 | the upsert sets only the message id column and keeps the state and variables |
| StateStore.ReadMessageID | BotExt/db.go:147-160 | no row reads as (0, true); a NULL id fails to scan (ok false); otherwise the stored id |
| StateStore.ReadAfterWriteState | BotExt/db.go:19-48 | a written state is read back, and every other user's state is unchanged |
| StateStore.ReadAfterWriteVar | BotExt/db.go:66-92 | a variable written into an existing row is read back with ok; other variables are unchanged |
| StateStore.WriteVarWithoutRow | BotExt/db.go:66-77 | a variable written before the user has a row is lost |
| StateStore.ResetLeavesNoState | BotExt/db.go:59-62 | after a reset the user has a row with no state and variables cleared unless kept; the message id and other users are unchanged |
| StateStore.MessageIDIndependent | BotExt/db.go:133-160 | writing the message id reads it back and leaves the state and variables unchanged |
| StateStore.WriteMessageIDTwice | BotExt/db.go:133-145 | only the last message id written counts |
| StateStore.Store.constructor | BotExt/db.go:13 | the table starts empty |
| StateStore.Store.SetState | BotExt/db.go:19-33 | the table becomes `WriteState` of the old table |
| StateStore.Store.GetState | BotExt/db.go:35-48 | the stored state, or no state for a missing row |
| StateStore.Store.HasState | BotExt/db.go:50-57 | true exactly when the row exists and names a state |
| StateStore.Store.ResetState | BotExt/db.go:59-62 | the table becomes `Reset` of the old table |
| StateStore.Store.SetStateVar | BotExt/db.go:66-77 | the table becomes `WriteVar` of the old table |
| StateStore.Store.GetStateVar | BotExt/db.go:79-92 | the value and ok flag as `ReadVar` defines them |
| StateStore.Store.GetStateVars | BotExt/db.go:94-117 | the row's variables, or none without a row |
| StateStore.Store.ClearStateVars | BotExt/db.go:119-129 | the table becomes `ClearVars` of the old table |
| StateStore.Store.SetMessageID | BotExt/db.go:133-145 | the table becomes `WriteMessageID` of the old table |
| StateStore.Store.GetMessageID | BotExt/db.go:147-160 | the id and ok flag as `ReadMessageID` defines them |
| ReplyMenu.CeilDiv | BotExt/ReplyMenuBuilder.go:20 | the least row count whose rows of `m` hold `n` items: `n <= c*m` and `(c-1)*m < n` |
| ReplyMenu.CeilDivBounds | BotExt/ReplyMenuBuilder.go:20 | any count meeting those two bounds is the ceiling of `n/m` |
| ReplyMenu.RowCount | BotExt/ReplyMenuBuilder.go:17-21 | one row when the items fit one row; otherwise the ceiling of items over row width |
| ReplyMenu.EmptyRows | BotExt/ReplyMenuBuilder.go:24 | `n` empty rows |
| ReplyMenu.ReplyMenuConstructor | BotExt/ReplyMenuBuilder.go:10-41 | resize is on, one-time and remove follow `once`, and the keyboard is the pre-sized empty rows followed by the packing loop's layout of the captions |
| ReplyMenu.PackedRows | BotExt/ReplyMenuBuilder.go:25-38 | the packed rows are non-empty, at most `maxElementsInRow` long, read in order as the captions without splitters, and never show the splitter; they are exactly the rows between breaks, a break being every index that is a multiple of `maxElementsInRow` and every splitter |
| ReplyMenu.MainUserMenuShape | user_menus.go:15-22 | the five main-menu captions at width 2 give three leading empty rows, then rows of 2, 2 and 1 |
| RowLayout.PackPrefixShape | BotExt/InlineMenuBuilder.go:183-197 | during the placement loop every closed row is non-empty and at most `width` long, and the open row never exceeds the distance from the last multiple of `width` |
| RowLayout.PackPrefixContent | BotExt/InlineMenuBuilder.go:183-197 | during the placement loop the closed rows followed by the open row are exactly the non-splitter items seen so far, in order |
| RowLayout.Layout | BotExt/ReplyMenuBuilder.go:25-38 | the final keyboard has well-formed rows whose concatenation is the non-splitter items in order |
| RowLayout.Chunks | BotExt/InlineMenuBuilder.go:183-197 | consecutive chunks of `width`, each non-empty and at most `width` long, that concatenate back to the input |
| RowLayout.PlacedHasNoSplitter | BotExt/InlineMenuBuilder.go:190 | the splitter is never placed on the keyboard |
| RowLayout.PlacedAll | BotExt/InlineMenuBuilder.go:190-192 | with no splitter every item is placed |
| RowLayout.PackAtBreak | BotExt/ReplyMenuBuilder.go:26-34 | at an index that is a multiple of the width or a splitter, the open row is closed: the rows so far are the keyboard of the items before it, and the new open row holds that item unless it is a splitter |
| RowLayout.PackKeepsBefore | BotExt/ReplyMenuBuilder.go:25-35 | from a break on, the rows closed before it stay in place, and the later rows followed by the open row hold exactly the items placed from the break on |
| RowLayout.LayoutSplitsAtBreak | BotExt/ReplyMenuBuilder.go:25-38 | no row straddles a break: the keyboard of the items before a multiple of the width or a splitter is a prefix of the whole keyboard, and the remaining rows hold exactly the items placed from there on |
| RowLayout.PackAfterLastBreak | BotExt/ReplyMenuBuilder.go:25-35 | with no break after a break, every later item joins the open row that the break started |
| RowLayout.LayoutLastRow | BotExt/ReplyMenuBuilder.go:25-38 | after the last break, all remaining placed items form the single last row, which is emitted only when non-empty |
| RowLayout.LastBreak | BotExt/ReplyMenuBuilder.go:26 | the greatest index up to `k` that is a multiple of the width or holds a splitter |
| RowLayout.LayoutByBreaks | BotExt/ReplyMenuBuilder.go:25-38 | the packing loop builds exactly the reference rows that run from one break to the next, splitters left out and empty rows dropped |
| RowLayout.LayoutWithoutSplitters | BotExt/ReplyMenuBuilder.go:25-38 | without splitters the packing loop's keyboard is exactly the chunks of `width` |
| RowLayout.FiveAtWidthTwo | BotExt/ReplyMenuBuilder.go:25-38 | five captions at width 2 are packed as rows of 2, 2 and 1 |
| RowLayout.SplitterAfterSecond | BotExt/InlineMenuBuilder.go:184-192 | a splitter after the second of five items at width 2 gives rows of 2, 1 and 2; the index of the splitter still counts |
| InlineMenus.BakeRow | BotExt/InlineMenuBuilder.go:181 | one laid-out button per template of a row, in order |
| InlineMenus.BakeRows | BotExt/InlineMenuBuilder.go:179-198 | one laid-out row per row of templates |
| InlineMenus.SettersOf | BotExt/InlineMenuBuilder.go:146-157 | a unique has a setter exactly when some added template with that unique carries a setter text |
| InlineMenus.SettersOfLastWins | BotExt/InlineMenuBuilder.go:151-154 | when several templates share a unique, the last one with a setter decides that unique's setter |
| InlineMenus.RelabelButton | BotExt/InlineMenuBuilder.go:254-262 | a button with a setter gets the setter's text, even when the setter reports an error; its unique and payload are kept; a button without a setter is unchanged |
| InlineMenus.RelabelRow | BotExt/InlineMenuBuilder.go:253-263 | a row keeps its length and each button is relabelled |
| InlineMenus.Relabel | BotExt/InlineMenuBuilder.go:252-264 | the keyboard keeps its shape, row by row |
| InlineMenus.PairsToTemplates | BotExt/InlineMenuBuilder.go:217-225 | one template per fetched pair, in map order: the key is the unique, and the value is both the caption and the state to trigger |
| InlineMenus.FlattenBakeRows | BotExt/InlineMenuBuilder.go:179-198 | laying out row by row is the same as laying out the buttons in reading order |
| InlineMenus.ConstructShape | BotExt/InlineMenuBuilder.go:174-199 | the carcass has non-empty rows of at most `maxButtonsInRow` buttons; read in order, they are the non-splitter templates laid out one by one |
| InlineMenus.DynamicButtonsCarryPairs | BotExt/InlineMenuBuilder.go:217-225 | a fetched button shows the pair's value, has the pair's key as its unique, and carries the menu name as its payload |
| InlineMenus.InlineMenu.NewInlineMenu | BotExt/InlineMenuBuilder.go:112-119 | a menu with the given name, header and width, a data fetcher (possibly nil) and no button fetcher, and no buttons yet |
| InlineMenus.InlineMenu.NewDynamicInlineMenu | BotExt/InlineMenuBuilder.go:122-129 | a menu with a button fetcher and no data fetcher, and no buttons yet |
| InlineMenus.InlineMenu.PurgeButtons | BotExt/InlineMenuBuilder.go:140-143 | templates and setters are emptied; the laid-out carcass stays |
| InlineMenus.InlineMenu.AddButton | BotExt/InlineMenuBuilder.go:146-157 | the template is appended; a setter text is also indexed under the button's unique |
| InlineMenus.InlineMenu.AddButtons | BotExt/InlineMenuBuilder.go:132-137 | the templates are replaced by the new list, not appended to, and the setter table is rebuilt from it |
| InlineMenus.InlineMenu.Construct | BotExt/InlineMenuBuilder.go:174-199 | the carcass becomes the packing layout of the templates, each laid out by `manageButton` |
| InlineMenus.InlineMenu.DynamicBake | BotExt/InlineMenuBuilder.go:202-230 | without a button fetcher nothing changes; `NoButtons` and other errors change nothing and are reported; otherwise the templates become the fetched pairs (none for a nil map), the setters are empty, and the carcass is rebuilt |
| InlineMenus.InlineMenu.RelabelCarcass | BotExt/InlineMenuBuilder.go:252-264 | the carcass is relabelled in place, cell by cell |
| InlineMenus.InlineMenu.Bake | BotExt/InlineMenuBuilder.go:232-266 | nil exactly for a dynamic menu whose fetcher reports no buttons, otherwise the carcass afterwards; the carcass is rebuilt from fetched pairs, relabelled from a fetched data map, and otherwise left as it was |
| InlineMenus.InlineMenu.Update | BotExt/InlineMenuBuilder.go:160-172 | one edit of the given message with the header and the baked keyboard: no markup exactly when a dynamic menu has no buttons, otherwise the carcass as baked; an error is logged unless the edit succeeded or Telegram reported the same content |
| InlineMenus.Registry.constructor | BotExt/InlineMenuBuilder.go:19-23 | an empty registry over the given store |
| InlineMenus.Registry.GetInlineMenu | BotExt/InlineMenuBuilder.go:26-32 | the registered menu, or nil for an unknown name |
| InlineMenus.Registry.RegisterMenu | BotExt/InlineMenuBuilder.go:50-57 | a taken name is rejected and nothing changes; otherwise the menu is laid out and stored under its name |
| InlineMenus.Registry.Show | BotExt/InlineMenuBuilder.go:60-73 | an unknown menu is an error and nothing is stored or sent; otherwise the current message id plus one is stored, the menu is baked, and the header with the baked carcass is sent, except that a dynamic menu with no buttons sends nothing; the outputs are exactly `ShowOutputs` before the call, and no other menu of the registry can change |
| InlineMenus.Registry.Update | BotExt/InlineMenuBuilder.go:35-47 | an unknown menu or an unreadable message id sends nothing and changes no menu; otherwise exactly one edit of the stored message id with the menu header and the baked keyboard (none for a dynamic menu with no buttons); no menu other than the named one can change |
| DialogEngine.ApplyWrites | BotExt/db.go:66-77 | a manipulator's variable writes touch only the writing user's variables: every user keeps their row set, state and message id, and other users keep their whole row |
| DialogEngine.LinkStep | BotExt/FSM.go:36-47 | one registration step keeps the chain invariant: old entries untouched, the registered prefix present, duplicate-free, and each state pointing at its successor |
| DialogEngine.LinkWired | BotExt/FSM.go:43-47 | one registration step keeps every `next` pointing at a registered state of lower rank, so following `next` always ends |
| DialogEngine.TakenName | BotExt/FSM.go:37-39 | registration stops at a taken name only when the chain repeats a name or the name was registered before |
| DialogEngine.Fsm.constructor | BotExt/FSM.go:23-28 | a new machine has no states and uses the given menu registry and its store |
| DialogEngine.Fsm.RegisterStateChain | BotExt/FSM.go:31-50 | succeeds exactly when the list is non-empty, its names are distinct and none is registered; an empty list changes nothing; the states registered before a clash stay registered, each linked to its successor |
| DialogEngine.Fsm.RegisterOneShotState | BotExt/FSM.go:53-60 | succeeds exactly when the name is free, then adds the state with no successor; otherwise the map is unchanged |
| DialogEngine.Fsm.TriggerEffectIsolated | BotExt/FSM.go:128-159 | triggering a state (and every state it runs through) writes only the triggering user's row |
| DialogEngine.Fsm.AdvanceEffectIsolated | BotExt/FSM.go:219-223 | resetting or triggering the successor writes only the user's row |
| DialogEngine.Fsm.UpdateEffectIsolated | BotExt/FSM.go:162-224 | an update for one user never changes another user's state, variables or message id |
| DialogEngine.Fsm.TriggerEffectAtRest | BotExt/FSM.go:128-159 | after a trigger the user is idle or parked in a state that has a validator or manipulator |
| DialogEngine.Fsm.AdvanceEffectAtRest | BotExt/FSM.go:219-223 | after a state finishes the user is idle or waiting in a later state; the last state of a chain leaves the user with no state |
| DialogEngine.Fsm.UpdateEffectAtRest | BotExt/FSM.go:162-224 | an update keeps the user at rest; a rejected input changes nothing in the store |
| DialogEngine.Fsm.Trigger | BotExt/FSM.go:63-73 | an unknown state name sends nothing and changes nothing; a menu name is recorded on the state; otherwise the outputs are those of `StateTrigger` (prompt, then the trigger menu as the registry shows it, then the auto-run outputs) and the store ends as the trigger effect |
| DialogEngine.Fsm.StateTrigger | BotExt/FSM.go:128-159 | stores the state and (unless a menu crashes) leaves the store as the trigger effect; the outputs start with the prompt followed by exactly what showing the trigger menu sends; a state with a check stops there and never crashes; a check-free state that does not crash continues with the success outputs of its update (menu refresh, notice, next prompt) |
| DialogEngine.Fsm.ShowKeepingMessageID | BotExt/FSM.go:136-140 | showing the trigger menu sends exactly what the registry's `Show` sends for it (nothing for an unknown menu or a dynamic one with no buttons, else the header with the baked carcass), leaves the user's message id at the value it had before, and can change no other menu |
| DialogEngine.Fsm.Update | BotExt/FSM.go:76-86 | a user with no state gets nothing and the store is unchanged; a stored name with no registered state crashes; otherwise the store ends as the update effect of the current state |
| DialogEngine.Fsm.StateUpdate | BotExt/FSM.go:162-224 | a rejected input sends exactly the validator's message; a continuing manipulator sends nothing; a failing one sends the apology and resets; an accepted input sends the menu edit, then the success notice, then the successor's prompt; the store ends as the update effect |
| DialogEngine.Fsm.SetVars | BotExt/db.go:66-77 | the manipulator's writes applied one after another, as `ApplyWrites` states |
| DialogEngine.Fsm.Advance | BotExt/FSM.go:197-223 | the outputs are, in order, the edit of the menu the state was opened from (when there is one and an id is stored), the success notice if any, then the successor's prompt (none for the last state); the store ends reset (last state) or as the successor's trigger effect |
| DialogEngine.Fsm.RefreshMenu | BotExt/FSM.go:197-204 | nothing happens without a menu or a stored message id; it crashes exactly when the menu name is unknown while an id is stored; otherwise one edit of the stored message with the menu header and the baked keyboard; no other menu can change |
| Notifications.Score | notification_service.go:71-72 | a user absent from the sorted set has score 0, a present one their stored score |
| Notifications.AddAt | notification_service.go:70-84 | adding one user never adds any other member and never changes any other member's score |
| Notifications.AddAtStoresIff | notification_service.go:69-84 | the timestamp is stored exactly when it is non-zero and the user is not queued or queued no earlier; otherwise the set is unchanged |
| Notifications.AddAtNeverLater | notification_service.go:76-78 | a queued user is never moved to a later time |
| Notifications.AddAtKeepsNoZero | notification_service.go:73-75 | adding never puts a zero score into the set |
| Notifications.Members | notification_service.go:108-126 | the set of users of a list is exactly the users it contains |
| Notifications.SucceededStep | notification_service.go:109-126 | a due user joins the update list exactly when both the handler call and the removal succeeded |
| Notifications.RemovedAllSnoc | notification_service.go:120 | removing one more user removes exactly that member |
| Notifications.RemovedSucceededStep | notification_service.go:109-126 | after one more due user the set has lost that user exactly when both calls for them succeeded |
| Notifications.RemovedAllMembers | notification_service.go:120 | removing the users of a list one at a time removes exactly the list's members |
| Notifications.SucceededMembers | notification_service.go:109-126 | a user is in the update list exactly when it is due and neither its handler nor its removal failed |
| Notifications.SucceededDistinct | notification_service.go:109-126 | the update list of distinct due users has no repeats |
| Notifications.ReaddEffect | notification_service.go:132-142 | re-adding distinct users absent from the set puts each back at its fresh non-zero timestamp, drops those without one, and touches no other member |
| Notifications.TickEffect | notification_service.go:94-145 | after a tick, users not due or whose handler or removal failed keep their score; each notified user is rescheduled at its fresh timestamp or leaves the set; nobody new is queued |
| Notifications.Rebuilt | notification_service.go:147-164 | the rebuilt set holds only users of the bulk query and no zero score |
| Notifications.RebuiltFromStep | notification_service.go:157-162 | one step of the rebuild loop adds that key's row unless its timestamp is 0 |
| Notifications.DayOffsetRange | notification_service.go:179-187 | the day offset is 0 to 7 days, 0 only for a slot later today, 7 only for a slot that already passed today, and always lands on the slot's weekday |
| Notifications.Weekday | notification_service.go:181 | the weekday of a day count is 0 to 6 |
| Notifications.NextOccurrenceCorrect | notification_service.go:179-188 | the nearest occurrence of a weekly slot lies after now and within a week, falls on the slot's weekday and local time, and one week earlier is not after now |
| Notifications.DivModOf | notification_service.go:179 | a day count and a time of day within the day are recovered from their Unix time |
| Notifications.Nearest | notification_service.go:175-178 | no slots give NULL; otherwise the result is the occurrence of one of the slots and no later than the occurrence of any slot |
| Notifications.LookupOf | notification_service.go:175-221 | a user with a slot gets a row; a user without one gets a non-Postgres failure, never a Postgres error |
| Notifications.LookupResult | notification_service.go:223-227 | only Postgres errors are reported; any other failure reads as timestamp 0 with no error |
| Notifications.NotificationService.constructor | notification_service.go:23-29 | a new service has an empty set |
| Notifications.NotificationService.AddUserAt | notification_service.go:70-84 | the set becomes `AddAt` of the old one: unchanged for a zero timestamp, never later for a queued user |
| Notifications.NotificationService.AddUser | notification_service.go:57-67 | fails exactly on a Postgres error and then changes nothing; any other lookup failure changes nothing; a found timestamp is added by `addUser` |
| Notifications.NotificationService.DelUser | notification_service.go:86-92 | removes exactly that user |
| Notifications.NotificationService.ProcessUsers | notification_service.go:94-145 | a failed range query changes nothing and reports failure; otherwise every due user is notified, in descending score order, the update list is the users whose handler and removal succeeded, and the set ends as the tick effect |
| Notifications.NotificationService.NotifyDue | notification_service.go:108-126 | the handler is called for every due user in order; the update list is the succeeded users and exactly they are removed |
| Notifications.NotificationService.ReaddUpdated | notification_service.go:132-142 | each listed user found in the bulk query is re-added with `addUser`, in order |
| Notifications.NotificationService.RebuildQueue | notification_service.go:147-172 | fails exactly when the purge or the bulk query fails; a failed purge changes nothing; a failed query leaves the set empty; otherwise the set is every non-zero row of the bulk query, whatever the iteration order |
| UserStates.LetterPairPasses | user_states.go:271-281 | two neighbouring letters of the class anywhere in the text make the name and city check pass, however long the text is: the `{2,50}` bound limits nothing |
| UserStates.PassingHasPair | user_states.go:271-281 | a text that passes the name and city check holds two neighbouring characters of the class |
| UserStates.BlankFails | user_states.go:276-281 | white space alone is rejected by both validators, each with its own message |
| UserStates.TimeVerdict | user_states.go:309-339 | for a text shaped hours `:` minutes whose parts parse, the hour bound is checked before the minute bound, each with its own message, and otherwise the text is accepted |
| UserStates.AcceptedTime | user_states.go:309-339 | an accepted text splits into exactly two parsable parts, hours at most 23 and minutes between 0 and 59 |
| UserStates.NegativeHourAccepted | user_states.go:309-339 | the hour has no lower bound: "-5:30" is accepted |
| UserStates.ClockTimeAccepted | user_states.go:309-339 | every `HH:MM` with hours 0 to 23 and minutes 0 to 59 is accepted |
| UserStates.ParseMinutes | user_states.go:421-425 | the `%dm` duration parses exactly when its nanoseconds fit in `int64`, and then stays within `int64` |
| UserStates.RoundHalfHour | user_states.go:426 | rounding a duration stays within `int64` |
| UserStates.RoundHalfHourNearest | user_states.go:426 | away from the ends of `int64` rounding gives a multiple of 30 minutes at most 15 minutes away, a tie going away from zero |
| UserStates.ClockDelta | user_states.go:405-419 | the delta of local and UTC minute of the day, computed with 64-bit wrap-around, stays within `int64` |
| UserStates.DayEdgeRange | user_states.go:410-419 | for minutes of the day the wrapped delta lies in [-720, 840] and differs from the plain difference by whole days |
| UserStates.OffsetTextOfMinutes | user_states.go:430-440 | the offset text of a whole number of minutes is `UTC`, `-` exactly when it is negative, then its absolute hours and minutes on two digits each |
| UserStates.TimezoneOfClockTime | user_states.go:404-443 | for hours 0 to 23 and minutes 0 to 59 the offset is computed without error, reads back from its stored text as a multiple of 30 minutes in [-720, 840] within a quarter hour of the clock difference modulo a day, and the offset text spells it |
| UserStates.ClockShift | user_states.go:404-443 | the exact result for a valid clock time: the rounded shift, its text and its decimal string |
| UserStates.ClockDeltaOfClockTime | user_states.go:405-419 | for a valid clock time no 64-bit wrap-around happens |
| UserStates.TimezoneOfMinutes | user_states.go:421-440 | a delta of up to a million minutes gives the shift rounded to 30 minutes, spelled out, within 15 minutes of the delta |
| UserStates.RoundMinutes | user_states.go:426-427 | rounding a whole number of minutes gives a multiple of 30 within 15 minutes, a tie going away from zero |
| UserStates.NegativeHourOutOfRange | user_states.go:309-339 | as written, "-99:30" is accepted and the shift saved from it is below -720, outside the range of `timezone_raw`, at any UTC time |
| UserStates.MinusNinetyNineParsed | user_states.go:312-339 | "-99:30" is accepted, splits into "-99" and "30", and parses to -99 and 30 |
| UserStates.StrictTimeInRange | user_states.go:309-339 | with the hour also bounded below, every accepted time gives a shift inside [-720, 840] at any UTC time |
| UserMenus.SwitchCaption | user_menus.go:287-297 | the caption is the label with a bell for `"true"`, a muted bell for any other value, and `"???"` with an error exactly when the key is missing |
| UserMenus.DayTimeCaption | user_menus.go:329-335 | the caption is the stored time, or `HH:MM` with an error exactly when the key is missing |
| UserMenus.FieldCaption | user_menus.go:82-146 | an account field shows its prefix and stored value, or the field's "unknown" caption with an error exactly when the key is missing |
| UserMenus.NotificationsData | user_menus.go:246-281 | a failed query gives a nil map and an error; otherwise a map is always handed back, the error is reported exactly when a row fails to scan or the global switch is missing, and on success the map holds each day's `On` and `Time` keys from the rows plus `globalOn` |
| UserMenus.WeekdayKeysDistinct | user_menus.go:264-278 | for the seven weekday names the `On`, `Time` and `globalOn` keys never collide |
| UserMenus.SlotDataOfRow | user_menus.go:259-266 | the keys a row writes keep its values when no later row has the same day |
| UserMenus.ReminderCaptionsShowRow | user_menus.go:246-297 | when every row scans, a day's switch and time buttons and the global switch show exactly what the rows and the global flag hold, without an error |
| UserMenus.NotificationButtons | user_menus.go:283-343 | a day gets two buttons, `NotificationSwitch_` and `NotificationTime_` plus the day, captioned by the day's switch and time setters |
| UserMenus.NotificationUniquesDistinct | user_menus.go:286-328 | the uniques of a switch and a time button never coincide, and different days give different uniques |
| UserMenus.DaySwitchClick | user_menus.go:310-322 | the queue loses the user and then gets them back at their recomputed timestamp through `addUser` |
| UserMenus.FreshSlotReplaces | user_menus.go:315-322 | because the user is removed first, a non-zero recomputed timestamp replaces the old one even when later, and a zero one leaves the user out; without the removal a later timestamp would be ignored |
| UserMenus.GlobalSwitchClick | user_menus.go:193-215 | a switch turned on runs `AddUser`; a switch turned off or an update that failed removes the user; an error is reported only for a Postgres failure of the lookup |
| UserMenus.OrderedSet | user_menus.go:362 | setting a key either keeps the length (the key is overwritten in place) or appends the pair |
| UserMenus.OrderedSetFresh | user_menus.go:362 | setting a key that is absent appends the pair at the end |
| UserMenus.OrderedFromDistinct | user_menus.go:357-363 | with distinct keys the ordered map is exactly the rows in query order |
| UserMenus.FinishFetch | user_menus.go:365-369 | a non-empty map is returned as is; an empty one never yields `NoButtons` but a nil map, or an error when the notice could not be sent |
| UserMenus.EntriesOf | user_menus.go:357-363 | one entry per row, in order |
| UserMenus.ScanRows | user_menus.go:394-411 | a map is produced exactly when every row scans, and then it is the ordered map of the rows' entries |
| UserMenus.WarmupGroupsFetcher | user_menus.go:345-370 | a failed query or row gives an error; otherwise the ordered map of (group id, name) rows, never `NoButtons` |
| UserMenus.PriceLabel | user_menus.go:399-409 | bought when acquired, free for price "0" when not acquired, otherwise the price in roubles |
| UserMenus.PriceLabelsDistinct | user_menus.go:399-409 | the three labels differ in their first character |
| UserMenus.WarmupsFetcher | user_menus.go:372-418 | a missing selected group, a failed query or a failed row gives an error; otherwise the ordered map of (warmup id, name with price label) rows, never `NoButtons` |
| UserApi.PayloadGroup | user_api.go:69-80 | a payload is accepted only as exactly two bar-separated pieces starting with the checker word, and the group id read from it contains no bar |
| UserApi.PayloadRoundTrip | user_api.go:69-80 | the invoice payload of a group id without a bar parses back to that id |
| UserApi.PayloadGroupInverse | user_api.go:69-80 | every payload that parses is exactly the invoice payload of the id it yields |
| UserApi.OnUserCheckout | user_api.go:63-115 | every refusal carries the payment error text; an acceptance always comes with the purchase row; the row records the user, the checkout id, the total followed by the currency, and the group whose invoice payload the query carried |
| UserApi.CheckoutOfGroupPayload | user_api.go:69-114 | for a group's invoice payload the checkout is accepted exactly when the group exists, its price times 100 equals the total and the insert succeeds |
| UserApi.CheckoutOfForeignPayload | user_api.go:69-79 | a payload that is no group's invoice payload is refused before any lookup or insert |
| UserApi.OfferOf | user_api.go:182-190 | the purchase-aware lookup finds a row exactly when the group exists |
| UserApi.ProcessWarmupGroup | user_api.go:176-214 | a missing row is an error; a free or already bought group opens the warmups menu and sends no invoice; any other group gets an invoice of its price times 100 in roubles whose payload parses back to the group |
| UserApi.PaidInvoiceAccepted | user_api.go:63-115 | paying the invoice a paid, not yet bought group produces is accepted and records that group at the billed amount |
| UserApi.ParseCallback | user_api.go:33-36 | the Go code panics exactly when the data is empty or has no bar after its first character; otherwise the unique and the menu name contain no bar |
| UserApi.SplitCount | user_api.go:34 | splitting gives a second piece exactly when the separator occurs |
| UserApi.CallbackRoundTrip | user_api.go:33-36 | a callback of a lead character, a unique, a bar and a menu name without a bar parses back to the unique and the menu |
| UserApi.CallbackActionOf | user_api.go:38-50 | a click in the warmup group menu opens that group, a click in the warmups menu opens that warmup, anything else does nothing |
| UserApi.OnUserInlineResult | user_api.go:32-52 | data that makes Go panic does nothing; a group click stores the group in `selectedWarmupGroup`; no other click writes to the store |
| UserApi.OnUserText | user_api.go:126-154 | a user in a dialog always goes to the dialog update; the group changes exactly when the text is "СТАТЬ АДМИНОМ" outside a dialog and the sender is the configured, non-zero supervisor, and then to admin |
| UserApi.MainMenuOptionsRouted | user_api.go:134-145 | outside a dialog every caption of the main user keyboard has a handler, none of them a group change |
| UserApi.OnUnregisteredText | user_api.go:117-124 | an unregistered user's text reaches the dialog exactly when they are in one, and does nothing otherwise |
| AdminApi.CommandGroup | admin_api.go:239-259 | "бан", "админ" and "юзер" map to banned, admin and user, each exactly; every other command maps to nothing |
| AdminApi.HandleUserGroupChange | admin_api.go:219-260 | a reply is taken up only when it answers a non-empty bot message of exactly three bar-separated pieces; an id piece that does not parse is the error case; a group change carries the parsed id and the group of the lower-cased command |
| AdminApi.UserLineRoundTrip | admin_api.go:231-259 | replying to a user-list line whose name and class hold no bar changes the group of exactly the user of that line when the text is a command, and is no group change otherwise |
| AdminApi.UpperCaseBan | admin_api.go:239-240 | the command is lower-cased first, so "БАН" bans |
| AdminApi.RecordingState | admin_api.go:43-75 | exactly the three recording captions start a recording state |
| AdminApi.SwitchRoute | admin_api.go:42-96 | the recording captions start their recording state; the switch never hands a text to the group change or the dialog; "СТАТЬ ЮЗЕРОМ" changes the group exactly for the configured, non-zero supervisor |
| AdminApi.OnAdminText | admin_api.go:41-108 | a text the switch does not consume goes to the group change when that handles it, and only otherwise to the dialog engine, with an unparsable id logged |
| AdminApi.HandleAdminText | admin_api.go:41-108 | routes as `OnAdminText`; a recording caption stores a fresh `RecordID` for the admin, and no other route writes to the store |
| AdminApi.OnAdminInlineResult | admin_api.go:115-155 | data that makes Go panic does nothing; a group click stores `selectedWarmupGroup` and feeds the dialog while a warmup is being added, otherwise opens the group parameters menu; a warmup click stores `selectedWarmup` and opens its parameters menu; other clicks write nothing |
| AdminStates.NameMax50Validator | admin_states.go:160-165 | the name is rejected exactly when it is 50 UTF-8 bytes or longer, so exactly 50 bytes is rejected; the only message is the too-long text |
| AdminStates.TwoByteLength | admin_states.go:161 | a text of two-byte characters has twice as many bytes as characters |
| AdminStates.CyrillicNameLimit | admin_states.go:160-165 | the limit counts bytes: a Cyrillic name is refused from 25 letters on |
| AdminStates.AddWarmupGroup | admin_states.go:167-179 | the cancel word, in any case, ends the dialog with no write; any other text is inserted as the group name; the step never keeps the dialog open and fails exactly when the insert fails |
| AdminStates.RenameWarmupGroup | admin_states.go:181-199 | the cancel word ends the dialog with no write; a missing selected group fails with no write; any rename targets the selected group with the typed name; the step never keeps the dialog open |
| AdminStates.FinishRecording | admin_states.go:208-307 | "стоп" never keeps the dialog open; a one-time message is announced, broadcast and its record deleted; a cheerup is inserted; a warmup inserts at most one row under the record id; it is done exactly when the final statement succeeds (and, for a warmup, the group and name are known) |
| AdminStates.Record | admin_states.go:201-324 | without a record id the step fails with no work; the dialog stays open exactly when the text is neither "стоп" nor "отмена" and saving succeeds; "стоп" finishes the record by kind; "отмена" deletes the record; any other message is saved under the record id, continuing when the save succeeds and failing when it does not |
| AdminStates.StopEndsRecording | admin_states.go:208 | "СТОП" in capitals also ends the recording, because the text is lower-cased |
| AdminStates.WarmupNeedsGroupAndName | admin_states.go:243-261 | finishing a warmup fails with no write unless both the selected group and the warmup name are stored; with both, exactly one warmup row is inserted with them and the record id |
| AdminStates.StoredMessage | admin_states.go:326-376 | the stored row keeps the message id as decimal text, the chat and the album, and takes the text, or the caption when the text is empty |
| AdminStates.StoredHasFile | admin_states.go:338-353 | a stored message has a file exactly when the incoming one had media of a type other than text whose encoding was neither empty nor `{}` |
| AdminStates.BakeMessage | admin_states.go:470-504 | the result is an error exactly when the query or a row scan fails or there are no rows; otherwise it is every row, in order, album rows included, because `lastAlbum` is never assigned |
| AdminStates.CreateSendable | admin_states.go:556-575 | an object exists exactly for the seven media types; it carries the file and the stored type, and the stored text as caption except on video notes and stickers |
| AdminStates.SendableRoundTrip | admin_states.go:556-575 | storing an object's type, caption and file and creating it again gives back the same object |
| Middleware.Restrict | restrict_middleware.go:15-30 | a sender of the configured group gets `In`, everyone else `Out`, each replaced by `next` when nil |
| Middleware.RestrictNilIsNext | middleware.go:18-34 | with neither `In` nor `Out` set the middleware behaves exactly as `next` |
| Middleware.RestrictIgnoresLookupError | restrict_middleware.go:24 | only the group decides: the error the group lookup reports changes nothing |
| Middleware.Drop | restrict_middleware.go:39-51 | the dropping handler returns nil for every update |
| Middleware.BlacklistDrops | restrict_middleware.go:34-42 | a blacklisted group is dropped with a nil error; every other sender reaches `next` |
| Middleware.WhitelistPasses | restrict_middleware.go:46-54 | a whitelisted group reaches `next`; every other sender is dropped with a nil error |
| Middleware.ListsComplement | middleware.go:37-57 | for any sender exactly one of the two lists lets the update through to `next`, the other drops it |
| Middleware.MiddlewareLogger | middleware.go:59-88 | a nil logger panics; otherwise the wrapped handler returns `next`'s error unchanged and logs one info line with the text, sender, data and media type, plus one error line exactly when `next` failed |
| Text.Wrap64 | user_states.go:405-410 | the wrapped value is a 64-bit integer congruent to the input modulo 2^64, and equal to it when the input already fits |
| Text.IntToString | user_states.go:427 | the decimal text is non-empty, starts with `-` exactly for a negative number, and is digits after the first character |
| Text.Pad2 | user_states.go:440 | the `%02d` text has at least two digits and reads as the number |
| Text.ParseInt | user_states.go:321-328 | a parsed value fits in 64 bits and comes from a non-empty text of digits after an optional sign, negative only with a `-` |
| Text.ParseIntToString | admin_api.go:235 | every 64-bit integer printed in decimal parses back to itself |
| Text.ParsePad2 | user_states.go:321-328 | a `%02d` rendering parses back to its number |
| Text.IndexOf | user_api.go:69 | the index is the first occurrence of the separator, or the length exactly when it does not occur |
| Text.Split | user_api.go:69 | splitting gives at least one piece, no piece holds the separator, and joining the pieces gives the text back |
| Text.SplitJoin | admin_api.go:231 | splitting a join of separator-free pieces gives the pieces back |
| Text.SplitTwo | user_api.go:69-80 | two separator-free pieces joined by the separator split back into exactly those two |
| Text.ParseIntHasNo | admin_api.go:231-235 | a parsable text holds no character other than digits and a sign, so no separator |
| Text.LeadingSpaces | user_states.go:277 | the count covers exactly the white space at the front |
| Text.TrailingSpaces | user_states.go:277 | the count covers exactly the white space at the back |
| Text.TrimSpace | user_states.go:277 | the trimmed text is the slice of the input after its leading white space, with only white space after it, and neither starts nor ends with white space |
| Text.LowerChar | admin_states.go:168 | Latin and Cyrillic capitals map to their small letters |
| Text.ToLower | admin_api.go:239 | lower-casing keeps the length and lowers each character |
| Text.Utf8Width | admin_states.go:161 | a character takes one to four bytes, one exactly when it is ASCII |
| Text.ByteLength | admin_states.go:161 | the byte length lies between the character count and four times it |
| LegacyFsm.ApplyWrites | FSM.go:158-173 | a setter's variable writes keep the set of users with a row |
| LegacyFsm.ApplyWritesKeepsStates | FSM.go:158-173 | storing variables never changes any user's state |
| LegacyFsm.ResetEffect | FSM.go:80-92 | a reset whose variable flush fails changes nothing and fails; it fails exactly when the flush or the state write fails; on success the variables and the state are cleared |
| LegacyFsm.Fsm.constructor | FSM.go:46-52 | a new engine has an empty state pool over the given table |
| LegacyFsm.Fsm.AddState | FSM.go:63-77 | adding a name already in the pool panics and leaves the pool as it was; otherwise exactly that one state is added |
| LegacyFsm.Fsm.ClearStateVars | FSM.go:221-235 | fails exactly when the flush fails; otherwise the user's variables become empty |
| LegacyFsm.Fsm.ResetState | FSM.go:80-92 | the table and error are those of the reset effect, and the pool is unchanged |
| LegacyFsm.Fsm.TriggerState | FSM.go:95-121 | the reset name resets first; an unknown name or a failed write is an error; otherwise the state is stored and its text sent |
| LegacyFsm.Fsm.UpdateState | FSM.go:124-153 | no stored state gives the "can't answer" reply; an unknown state is an error; otherwise the setter runs, its writes apply, and unless it failed the state it names is triggered |
| LegacyFsm.Fsm.SetStateVar | FSM.go:158-173 | fails exactly when the write fails; otherwise the variable is stored in the user's row, and nothing for a user without one |
| LegacyFsm.Fsm.GetStateVar | FSM.go:177-195 | `ok` exactly when the read succeeds and the row and key exist, with the stored value; an error exactly when the read fails or the row exists without the key |
| LegacyFsm.Fsm.GetStateVars | FSM.go:198-219 | fails exactly when the read fails; otherwise the user's variables, and an empty map without a row |
| LegacyFsm.TriggerUnknownWritesNothing | FSM.go:103-106 | triggering a name outside the pool is an error that writes and sends nothing |
| LegacyFsm.ResetTriggerStillFails | FSM.go:96-106 | triggering the reset name clears the user's variables and state and then still reports an error, since the reset name is not a registered state |
| LegacyFsm.UpdateWithoutState | FSM.go:129-131 | without a stored state the only effect is the "can't answer" reply |
| LegacyFsm.SetterErrorKeepsState | FSM.go:140-143 | a setter error ends the update with an error and the user's state unchanged |
| LegacyFsm.TransitionAlwaysTaken | FSM.go:145 | for a non-empty current state the transition test is always true |
| LegacyFsm.ResumeIsAnError | FSM.go:145-149 | a setter asking to stay triggers the empty name, which is an error, and leaves the state unchanged |
| LegacyFsm.SameStateResends | FSM.go:145-149 | a setter naming the current state re-enters it: no error, same state, and its text is sent again last |
| LegacySurvey.NonNil | states.go:95 | the errors `multierror.Append` collects are exactly the non-nil ones: none is nil, and none is kept only when all were nil |
| LegacySurvey.Append | states.go:187 | `multierror.Append` always yields a non-nil error, whose list is empty exactly when every appended error was nil |
| LegacySurvey.ErrorOrNil | states.go:95-96 | the collected error is nil exactly when nothing non-nil was collected |
| LegacySurvey.NameSetter | states.go:81-97 | the name step stays put exactly for an empty or non-matching answer; otherwise it stores the title-cased name, names the age step, and always reports an error |
| LegacySurvey.FixedNameSetter | states.go:81-97 | with `ErrorOrNil`, a matching name is stored and the age step named, with an error exactly when the write fails |
| LegacySurvey.AgeSetter | states.go:99-121 | the age step moves on exactly for an integer from 1 to 100, stores it as typed, and fails exactly when the write fails |
| LegacySurvey.CitySetter | states.go:123-139 | the city step moves on exactly for a matching answer, stores it title-cased, and fails exactly when the write fails |
| LegacySurvey.LegacyClockDelta | states.go:49-54 | the local minute of the day less the UTC one, kept within 64-bit range |
| LegacySurvey.LegacyDelta | states.go:49-54 | for hours and minutes of moderate size the difference is exact, with no wrap at the day edge |
| LegacySurvey.LegacyMatchesTimezoneOf | states.go:54-73 | per delta the offset succeeds exactly when the user_states.go computation does, with the same text and the shift followed by `.000000.0f` |
| LegacySurvey.LegacyCalcOfMinutes | states.go:48-76 | the offset is the difference rounded to a whole number of half hours within a quarter hour, signed and spelled as hours and minutes |
| LegacySurvey.LegacyCalcWithoutDayEdge | states.go:48-76 | where the difference needs no day-edge wrap, the offset text equals the one user_states.go computes |
| LegacySurvey.LegacyCalcBeyondRange | states.go:48-76 | without a day-edge wrap, a difference beyond +14:15 gives an offset past +14:00 |
| LegacySurvey.ShiftAsWrittenNeverParses | states.go:60 | the shift spelled with `%f.0f` never reads back as an integer |
| LegacySurvey.ShiftCorrectedParses | states.go:60 | the shift spelled as a whole number reads back as the same number |
| LegacySurvey.TimezoneSetterFollowsValidator | states.go:141-188 | the time step moves on exactly for a text that passes every time check and whose offset computes, and then it names the experience step and reports an error |
| LegacySurvey.ExperienceSetter | states.go:190-251 | the closing step accepts exactly a listed variant in any case, writes no variable, and names the reset state |
| LegacySurvey.CapitalisedVariantAccepted | states.go:197-198 | a capitalised variant is lower-cased and accepted |
| LegacySurvey.ExperienceFailsAfterTimezone | states.go:229-232 | with the shift the time step stores, the closing step always reports an error |
| LegacySurvey.SurveyPool | states.go:78-252 | the registered pool holds exactly the five survey states, with their questions and the experience menu |
| LegacySurvey.SetupStates | states.go:19-23 | setup gives a fresh engine over the table holding exactly the survey pool |
| LegacySurvey.SurveyStuckAtName | states.go:93-96 | no answer moves a user past the first question: the state stays at the name step |
| LegacySurvey.FixedNameAdvances | states.go:92-96 | with `ErrorOrNil`, a matching name is stored title-cased, the user moves to the age step, and the age question is sent last |
| LegacyBot.NameSetter | bot.go:41-54 | the name step moves on exactly for a non-empty matching answer, stores the name as typed, names the age step, and fails exactly when the write fails |
| LegacyBot.AgeSetter | bot.go:56-76 | the age step moves on exactly for an integer from 1 to 150, stores it as typed, and fails exactly when the write fails; a rejected answer writes nothing and is no error |
| LegacyBot.CitySetter | bot.go:78-94 | the city step moves on exactly for a matching answer, stores it title-cased, and fails exactly when the write fails |
| LegacyBot.OffsetOfMinutes | bot.go:126-147 | for moderate hours and minutes the stored shift is the clock difference rounded to a whole number of half hours within a quarter hour, and the text is signed and spelled from it |
| LegacyBot.OffsetOfRounded | bot.go:131-147 | once the difference rounds to `s` minutes, the shift is `s` in decimal and the text is spelled from `s` |
| LegacyBot.SpelledOfMinutes | bot.go:137-147 | the `UTC%c%02d:%02d` text of a whole number of minutes agrees with the user_states.go spelling |
| LegacyBot.OffsetOverflowIsZero | bot.go:131 | a difference too large for a duration is stored as offset zero, `UTC+00:00`, since the parse error is ignored |
| LegacyBot.HugeNegativeHourIsZero | bot.go:104-131 | the hour `-3000000` passes every check and the offset is stored as zero |
| LegacyBot.TimezoneSetterFollowsValidator | bot.go:96-156 | the time step moves on exactly for the texts the time validator accepts, then stores the computed shift and text, names the experience step, and fails exactly when the write fails |
| LegacyBot.StoredShiftParses | bot.go:134-135 | the stored shift always reads back as an integer |
| LegacyBot.ExperienceSetter | bot.go:158-191 | the closing step accepts exactly a listed variant in any case, writes no variable, sends the registration message and names the reset state, with no error |
| LegacyBot.BotPool | bot.go:39-192 | the registered pool holds exactly the five survey states, with their questions and the experience menu |
| LegacyBot.SetupStates | bot.go:39-192 | setup gives a fresh engine over the table holding exactly the bot's pool |
| LegacyBot.NameAdvances | bot.go:41-54 | a matching name is stored as typed, the user moves to the age step, and only the age question is sent |
| LegacyBot.Start | bot.go:195-201 | `/start` replies "welcome back" to a registered user and otherwise triggers the first survey state, leaving the pool unchanged |
| LegacyBot.StartRouting | bot.go:195-201 | a registered user only gets the reply and keeps the table; anyone else is put at the first question and sent it |
| LegacyMenus.PackRows | helpers.go:102-121 | the placement loop lays the items out in order in rows of `maxElementsInRow`, the last row possibly shorter |
| LegacyMenus.ReplyMenuConstructor | helpers.go:11-40 | the keyboard is resizable, one-time and removable exactly when asked, and holds `rowCount` empty rows followed by the captions in rows of `maxElementsInRow` |
| LegacyMenus.ReplyMenuAgreesWithBotExt | helpers.go:26-37 | after the leading empty rows, captions without the row-break sentinel are laid out exactly as BotExt's reply menu lays them out |
| LegacyMenus.SettersOfKeys | helpers.go:86-97 | a name has a text setter exactly when some button with that name has a computed caption |
| LegacyMenus.SettersOfValue | helpers.go:86-97 | with distinct names, every computed-caption button's name maps to its own setter |
| LegacyMenus.RoutesOfKeys | helpers.go:178-186 | a callback endpoint gets a handler exactly when some button with that name names a state or a handler |
| LegacyMenus.BakeOnlyRewritesCaptions | helpers.go:156-169 | baking keeps the keyboard's shape and every button's name and callback; a caption changes only to what the button's setter answered, and a button without a setter is untouched |
| LegacyMenus.FlattenBaked | helpers.go:156-169 | baking row by row is baking every button in reading order |
| LegacyMenus.ConstructedMenuShows | helpers.go:150-178 | with distinct names, a constructed and baked menu shows, in reading order, each static caption, each computed caption the setter answered, and `.` where the setter failed or no string was given |
| LegacyMenus.ShownAt | helpers.go:156-178 | one button, once baked, shows exactly its static caption, its setter's answer, or `.` |
| LegacyMenus.InlineMenu.constructor | helpers.go:79-84 | a new menu has the header and fetcher given and no buttons, setters or keyboard |
| LegacyMenus.InlineMenu.AddButtons | helpers.go:86-97 | the templates are replaced and the setters rebuilt from exactly the computed-caption buttons; nothing else changes |
| LegacyMenus.InlineMenu.Construct | helpers.go:99-122 | the keyboard is every template's baked button in rows of `maxElementsInRow`, and the returned handlers are those of buttons naming a state or a handler |
| LegacyMenus.InlineMenu.ApplySetters | helpers.go:156-169 | every button with a setter gets the setter's caption unless it fails; the rest of the menu is unchanged |
| LegacyMenus.InlineMenu.Bake | helpers.go:150-171 | baking panics exactly when the fetcher is nil, changing nothing; otherwise the keyboard is baked with the fetched data |
| LegacyMenus.InlineMenu.BakeNilSafe | helpers.go:150-171 | with a nil fetcher allowed, the keyboard is left as constructed; otherwise it is baked with the fetched data |
| LegacyMenus.InlineMenu.Serve | helpers.go:124-126 | serving panics exactly when the data fetcher is nil, sending nothing; otherwise it sends the header with the freshly baked keyboard |
| LegacyMenus.InlineMenu.Update | helpers.go:128-148 | a failed read or a missing `messageID` variable is an error that edits nothing; otherwise baking panics exactly when the data fetcher is nil, and else the stored message is edited to the freshly baked keyboard, failing exactly when Telegram refuses the edit |
| LegacyMenus.Click | helpers.go:191-206 | a state button triggers its state and then stores the clicked message's id, each failure only logged; the messages are those of the trigger |
| LegacyMenus.ClickStoresMessageID | helpers.go:197-204 | after a click the message id reads back whenever the user has a row by then, even when the trigger itself failed |

## Left out

- Telegram I/O is not executed. Sending, editing, deleting and answering callbacks, file
  upload and download, and the bot's handler registration are modelled only as the messages
  returned or the routes computed.
- Logging (`zap`, `fmt.Println`) is not modelled. The logging middleware models only which entries it writes.
- PostgreSQL and Redis are not modelled as databases. They are the `states` table as a map,
  the notification queue as a map from user to score, and success flags for the statements whose
  failure the handlers act on. SQL text
  beyond the day-offset `CASE` and the `ORDER BY` is not modelled.
- Notifications: the Redis score is a float64 in the source and an integer here. The range query
  is an input that the model constrains to return exactly the due members in descending score order.
- Notifications: Go map iteration order during the rebuild is an input sequence.
- Notifications: the `Start`/`Stop` ticker goroutine and the mutex are not modelled. A tick is one call.
- The clock (`time.Now`) is a parameter: the UTC minute of the day, or a Unix time.
- JSON unmarshalling of `temp_vars` is not modelled. Its error path in `GetStateVars` is absent,
  since the table stores a string map directly.
- Regular expressions are predicates over the text ("contains a match", as `MatchString` is
  unanchored). `cases.Title` is a function parameter.
- `sync.RWMutex` locking and concurrent access are not modelled.
- BotExt/db.go's `ResetState` takes no `keepVars` flag, but every caller in BotExt/FSM.go passes
  one. The model gives it the flag, as the callers use it.
- user_states.go's savers (`nameSaver`, `citySaver`, the settings writes) are database I/O. Only the
  timezone computation they store is modelled (`UserStates.TimezoneOfClockTime`).
- admin_states.go: sending stored messages and the network fallbacks of `SendMessages` /
  `sendFromDatabase` are not modelled. The model covers which messages are sent and how they
  are rebuilt.
- admin_api.go refers to `AdminSGAddWarmupGroup` and `changeWarmupGroupParamsMenu`, which none of
  the modelled files defines. Their routes are modelled by name only.
- The older survey (states.go) and the older bot (bot.go): the `INSERT INTO users` of the closing
  step is not modelled. Its success is a flag in `LegacySurvey.ExperienceSetter`, and bot.go
  ignores it.
- The older bot: `NewFSM` and the package-level `SetStateVar`/`GetStateVars` it calls are not part
  of this model. The bot is modelled on the engine of FSM.go, whose methods have the same effect.
- Older menus: `onClick` handlers are identified by name. Calling one is outside the model.
- Older menus: calling `Serve` or `Update` before `Construct` dereferences a nil keyboard. The model
  starts the keyboard empty instead.
- Row widths (`maxElementsInRow`, `maxButtonsInRow`) must be positive in every menu builder,
  both BotExt's and the older helpers'. Go panics on a zero width (`i % 0`). A negative width
  is not modelled.
- admin_menus.go, models.go (apart from the `timezone_raw` range, which the findings below use),
  config.go, main.go and the health check are configuration and wiring. They are not modelled.
- StateStore.Store.SetState, SetStateVar, ClearStateVars, SetMessageID and GetState always
  succeed in the model. BotExt/db.go only logs a failed write and goes on, and reads a failed state
  query as the empty name; those database failures are not modelled.
- Notifications.NotificationService.AddUserAt: the Redis calls of `addUser` always succeed in the
  model. In the source a failed `ZScore` reads as score 0 and a failed `ZAdd` is returned as the error.
- A NULL `state` column (a row that BotExt's `setMessageID` created) is stored as "". BotExt's
  reads treat it as no state, because their failed scan leaves the empty name. FSM.go's
  `getStateFromDB` fails on it instead, so its `UpdateState` would return an error where the
  model of the older engine gives the "can't answer" reply.
- DialogEngine.StateSpec: `OnQuitExtra` and the send options of `OnTriggerExtra` (a reply
  keyboard, parse mode and so on) are not modelled; outputs carry only the text. BotExt/FSM.go:184
  passes `OnQuitExtra` as one slice argument, not spread with `...`; what telebot makes of that
  argument is library code outside this model.
- The "Отправка сообщений..." notice is an effect of the one-time recording (`SendNotice`); whether
  it reaches Telegram is only logged in the source and is not modelled.
- RowLayout.Layout: its own contract states the row bounds and the order of the items. Where rows
  break is stated for all inputs by `RowLayout.LayoutByBreaks`, `LayoutSplitsAtBreak` and
  `LayoutLastRow`.
- Notifications.AddAt: the score is compared as an integer, where the source compares a float64.
- LegacySurvey.TimezoneSetterFollowsValidator: states the step and the error, not the stored values
  of the shift and text. Those are stated separately by `LegacyCalcOfMinutes`.

## Findings

| source | as written | input that shows it | evidently intended | confidence | as-written member | corrected member |
|---|---|---|---|---|---|---|
| user_states.go:309-339 | the time validator bounds the hour above (23) but not below, so a negative hour passes | "-99:30": its offset is -99 h 30 min rounded, below the -720 minutes that the `timezone_raw` CHECK of the `users` table allows | only clock times from 0:00 to 23:59 are accepted | not executed | UserStates.NegativeHourOutOfRange | UserStates.StrictTimeInRange |
| states.go:93-96 | the name setter returns `multierror.Append(err, sendErr)`, which is never nil, so the engine of FSM.go always treats the step as failed | any matching name, e.g. "Anna": the user stays at the name question | a nil error when the write and the send succeed (`ErrorOrNil`) | not executed | LegacySurvey.SurveyStuckAtName | LegacySurvey.FixedNameAdvances |
| states.go:60 | the raw offset is formatted with `%f.0f`, giving "180.000000.0f", and the closing step's `strconv.Atoi` of it then fails | any offset, e.g. 180 minutes | the offset written as a whole number (`%.0f`), which reads back | not executed | LegacySurvey.ShiftAsWrittenNeverParses | LegacySurvey.ShiftCorrectedParses |
| helpers.go:150-171 | the menu's documentation allows a nil data fetcher, but `bake` calls it unconditionally | a menu made with `NewInlineMenu(header, nil)` and then served | with no fetcher, the captions are left as constructed | not executed | LegacyMenus.InlineMenu.Bake | LegacyMenus.InlineMenu.BakeNilSafe |
