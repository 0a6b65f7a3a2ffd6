# Warmup engine of a Telegram giveaway bot, in Dafny

The bot registers every user who sends `/start` and records whether they have
joined the giveaway. Users who have not joined get up to three "warmup"
reminders. A scheduler tick runs every five minutes. On each tick it selects,
for stages 1, 2 and 3 in that order, the users who are due for that stage.
It sends each of them the reminder and writes the outcome back to the user
table:

- a delivered reminder advances the user's stage;
- an HTTP 403 marks the user as having blocked the bot;
- any other error changes nothing, so the user is retried on a later tick.

This project models two parts:

- `users.dfy`, module `Users`: the user table and the statements run on it
  (`src/database.js`). The SQLite table is a `Table` value: a map from
  `telegram_id` to a `UserRecord`, plus the ids in rowid (insertion) order.
  The `SELECT`s have no `ORDER BY`, so SQL promises no order; the model
  returns rows in rowid order, which is the order SQLite's plan gives here
  (a table scan, or rowid order within the equal keys of
  `idx_users_warmup`). No contract depends on that order. Each write statement is a
  function of the table (`Upserted`, `WithParticipation`, `WithBlock`,
  `WithStage`). The class `UserStore` holds the table and updates it in
  place. Each of its methods is proved equal to the matching function. The
  read statements (`GetUser`, `UsersForWarmup`, `GetStats`, `AllActiveUsers`)
  are functions of the table.
- `warmup.dfy`, module `Warmup`: the dispatcher (`src/warmup.js`).
  `SendWarmupMessage` turns a send outcome into a store update.
  `ProcessWarmupStage` is the sequential loop over the due users with its
  `sent`/`failed` counters. `WarmupTick` is the body of the scheduled job.
  Each method is proved equal to a function of the table (`AfterSend`,
  `StagePass`, `AfterTick`), and the lifecycle properties are proved about
  those functions.

External pieces are parameters:

- **Clock.** `CURRENT_TIMESTAMP` and `datetime('now')` become an integer
  `now` in seconds. `datetime(registered_at, '+h hours') <= datetime('now')`
  becomes `registeredAt + h * 3600 <= now`.
- **Messenger.** The Telegram client becomes an oracle
  `send: (int, UserId) -> SendOutcome`. It gives the outcome
  (`Delivered`, `Forbidden403` or `OtherError`) of sending a given stage's
  reminder to a given user.
- **Stage thresholds.** The configured thresholds (`config.warmupDelays`) are
  the `Delays` parameter.

Three behaviours of the code are easy to miss:

- **Elapsed time is measured from registration.** For every stage, the code
  measures elapsed time from `registered_at`, not from the previous reminder
  (`src/database.js:82`). As a result, a user can receive several stages in
  one tick (`TickCanSendAllThreeReminders`).
- **Completion does not stop an advance.** `updateWarmupStage` is not guarded
  by `has_participated` or `is_blocked` (`WithStage`). Nothing in the code
  makes completion stop an in-flight advance.
- **Ticks are not serialised.** The code does nothing to keep two ticks from
  running at once. That is a concurrency concern; see "Left out".

## Model

| member | source | states |
|---|---|---|
| `Users.OrNull` | src/database.js:41-44 | a missing field and the empty string are both stored as NULL; any other value is stored as given |
| `Users.Upserted` | src/database.js:29-46 | a new id gets exactly one new row: stage 0, no last warmup, not participated, not blocked, registered now, with the given source, appended in rowid order. An existing id keeps its row position and every lifecycle column (registered_at, source, has_participated, warmup_stage, last_warmup_at, is_blocked). Only username, first_name and last_name are overwritten, by the new values or NULL. No other row changes, and telegram_id stays unique |
| `Users.UserStore.UpsertUser` | src/database.js:29-46 | updates the store in place exactly as `Upserted` describes |
| `Users.NewUser` | src/database.js:15-20 | an inserted row takes the column defaults: not participated, stage 0, no last warmup, not blocked, registered now; the profile and source are the given values or NULL |
| `Users.GetUser` | src/database.js:48-52 | returns the row exactly when the id is in the table, and that row carries the requested telegram_id; returns nothing for an unknown id |
| `Users.UpsertThenGetUser` | src/database.js:48-52 | right after an upsert, getUser finds the row with the new username; has_participated is the old value, or false for a new user |
| `Users.WithParticipation` | src/database.js:55-58 | sets has_participated on that row only and changes nothing else; an absent id leaves the table unchanged |
| `Users.MarkAsParticipatedIdempotent` | src/database.js:55-58 | marking as participated twice equals marking once |
| `Users.UserStore.MarkAsParticipated` | src/database.js:55-58 | updates the store as `WithParticipation` describes; reports 1 changed row when the id exists and 0 otherwise |
| `Users.WithStage` | src/database.js:61-67 | sets warmup_stage to the given stage and last_warmup_at to now on that row, with no guard on participation or blocking; nothing else changes; an absent id leaves the table unchanged |
| `Users.UpdateWarmupStageIdempotent` | src/database.js:61-67 | repeating the same stage update at the same time equals doing it once |
| `Users.UserStore.UpdateWarmupStage` | src/database.js:61-67 | updates the store as `WithStage` describes; reports the changed row count |
| `Users.WithBlock` | src/database.js:70-73 | sets is_blocked on that row only and changes nothing else; an absent id leaves the table unchanged |
| `Users.MarkAsBlockedIdempotent` | src/database.js:70-73 | blocking twice equals blocking once |
| `Users.UserStore.MarkAsBlocked` | src/database.js:70-73 | updates the store as `WithBlock` describes; reports the changed row count |
| `Users.UserStore.constructor` | src/database.js:8-21 | a new store is an empty, valid table |
| `Users.SelectRows` | src/database.js:77-84 | a filtered SELECT returns exactly the rows the condition accepts, each row once |
| `Users.UsersForWarmup` | src/database.js:76-85 | returns exactly the rows that are not participated, not blocked, at the given stage, and registered at least `hoursAgo` hours before now. Elapsed time exactly equal to the threshold is included, and elapsed time is measured from registered_at, whatever last_warmup_at holds. No row appears twice |
| `Users.AllActiveUsers` | src/database.js:102-105 | returns exactly the rows that are not blocked, each once |
| `Users.CountWhere` | src/database.js:89-91 | a COUNT over the rows lies between 0 and the number of rows, and equals the number of rows exactly when every row matches |
| `Users.CountWhereIsSetSize` | src/database.js:89-91 | over distinct ids, the COUNT equals the number of ids whose row satisfies the condition |
| `Users.DistinctCardinality` | src/database.js:11 | since telegram_id is unique, COUNT(*) equals the number of distinct users |
| `Users.GetStats` | src/database.js:88-98 | total is the number of users; participated is the number of users with has_participated and blocked the number with is_blocked, so both lie between 0 and total; participated equals total exactly when every user has participated; pending is total - participated - blocked, as written |
| `Users.CategoriesAddUp` | src/database.js:97 | pending + participated + blocked equals the number of rows plus the number of rows that carry both flags |
| `Users.PendingAsWrittenMatchesIffDisjoint` | src/database.js:97 | the as-written pending equals the number of users with neither flag if and only if no user has both participated and blocked the bot |
| `Users.PendingAsWrittenGoesNegative` | src/database.js:97 | register, block, then participate is a history the bot's own statements produce, and after it getStats reports pending = -1 |
| `Users.GetStatsCorrected` | src/database.js:88-98 | total, participated and blocked are the numbers of users, of users with has_participated and of users with is_blocked; pending is the number of users with neither flag, so 0 <= pending <= total; the three categories account for every user, with the overlap counted once |
| `Users.HistoryPersists` | src/database.js:29-73 | after any sequence of the four write statements: no row is deleted, reordered or duplicated; registered_at and source are write-once; has_participated and is_blocked never revert to 0 |
| `Users.TerminalNeverDue` | src/database.js:76-85 | once a user has participated or blocked the bot, no later warmup query returns them, for any stage, threshold or time, whatever writes come in between |
| `Warmup.Transition` | src/warmup.js:20-41 | a delivered send sets the stage to the sent stage and last_warmup_at to now; a 403 sets is_blocked and keeps the stage; another error changes nothing; no other column changes |
| `Warmup.AfterSend` | src/warmup.js:20-41 | sendWarmupMessage's write changes only the addressed row, as `Transition` describes |
| `Warmup.SendWarmupMessage` | src/warmup.js:20-42 | updates the store as `AfterSend` describes and returns true exactly when the send was delivered |
| `Warmup.AfterSends` | src/warmup.js:62-72 | a batch of sends keeps the table valid, with the same rows and ids |
| `Warmup.CountDelivered` | src/warmup.js:59-68 | the number of delivered sends is between 0 and the batch size, and equals the batch size exactly when every send was delivered |
| `Warmup.AfterSendsEffect` | src/warmup.js:62-72 | sending to distinct users changes exactly those users' rows, each by its own outcome's transition; every other row is unchanged |
| `Warmup.StagePass` | src/warmup.js:50-75 | a stage pass keeps the table valid and adds or removes no row |
| `Warmup.StagePassEffect` | src/warmup.js:50-75 | a pass for stage k changes exactly the rows due at stage k - 1. A delivered reminder moves such a row from stage k - 1 to k, a rise of exactly one. A 403 blocks the row at stage k - 1. Any other error leaves it unchanged. With no due rows the table is unchanged |
| `Warmup.ProcessWarmupStage` | src/warmup.js:50-75 | updates the store as `StagePass` describes; sent + failed equals the number of due users, and sent equals the number of delivered sends |
| `Warmup.PassWithTransientFailures` | src/warmup.js:37-40 | a pass in which every send fails with a non-403 error leaves the table unchanged |
| `Warmup.AfterTick` | src/warmup.js:82-108 | a tick keeps the table valid and adds or removes no row |
| `Warmup.TickEffect` | src/warmup.js:82-108 | over one tick, each row changes at most its stage, last_warmup_at and is_blocked. A participated or blocked row is untouched. The stage never decreases; a changed stage rose from 0, 1 or 2 to at most 3 and carries the tick's timestamp |
| `Warmup.TickCanSendAllThreeReminders` | src/warmup.js:85-107 | a user registered 72 hours earlier and still at stage 0 goes to stage 3 in one tick when all sends are delivered, because eligibility is measured from registration |
| `Warmup.TickWithTransientFailuresChangesNothing` | src/warmup.js:82-108 | when every send fails with a non-403 error, a tick leaves the table unchanged, so the same users are retried on the next tick |
| `Warmup.WarmupTick` | src/warmup.js:82-108 | runs stages 1, 2 and 3 in order, each on the table the previous one left; the resulting store is `AfterTick` of the old one |

## Findings

| source | as written | input that shows it | evidently intended | confidence | as-written member | corrected member |
|---|---|---|---|---|---|---|
| src/database.js:97 | `pending = total - participated - blocked` subtracts twice a user who has both participated and blocked the bot | A user registers. A warmup send to them fails with 403, so is_blocked = 1. Later web_app_data arrives for them, so has_participated = 1. Nothing prevents this ordering. getStats then returns total 1, participated 1, blocked 1, pending -1 | pending is the number of users who have neither participated nor blocked the bot | medium, not executed | `Users.PendingAsWrittenGoesNegative` | `Users.GetStatsCorrected` |

## Left out

- Telegram I/O is not modelled. This covers the bot client, message texts,
  Markdown, the inline keyboard (`getGiveawayKeyboard`) and `console`
  logging. A send is reduced to its outcome, given by the `send` oracle.
- `src/bot.js` is not part of this model. It holds the command handlers,
  reply texts, polling, the admin-id check, the webapp-data parsing and
  process shutdown. The floating-point conversion percentage of `/stats` is
  omitted too.
- `Warmup.SendWarmupMessage`, `Warmup.ProcessWarmupStage`: database
  statements are modelled as never failing. In the source,
  `updateWarmupStage` runs inside the `try` (src/warmup.js:21-31). If it
  throws after a delivered send, the send is counted as failed and the same
  reminder is sent again on a later tick. `markAsBlocked` runs inside the
  `catch` (src/warmup.js:35). If it throws, the error escapes
  `processWarmupStage` and ends the rest of that tick's sends and stages.
- Scheduling is not modelled: `node-cron`, the five-minute period and the
  50 ms `delay` between sends. One tick is one call of `WarmupTick`.
- Concurrency is not modelled. This covers overlapping ticks and command
  handlers that write while a tick runs. The model is sequential, so it does
  not capture a completion that races with an in-flight stage update.
- SQLite internals are not modelled: prepared statements, indexes, the
  DATETIME text format and the RunResult object. Of the RunResult, only the
  changed-row count of the three UPDATEs is returned.
- `Warmup.WarmupTick`: one `now` serves the whole tick. In the source, each
  statement reads the clock when it runs, so the timestamps within a tick
  differ by the send latency and the 50 ms pauses.
- `Users.UsersForWarmup`: the threshold is a whole number of hours. The
  configured values are whole numbers. Fractional or negative hour
  modifiers in SQLite are not modelled.
- Only string values of the profile fields are modelled. For these,
  `value || null` maps undefined and "" to NULL. Other falsy JavaScript
  values are not.
