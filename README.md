# Graphene airdrop bot: the task and reward engine

The Graphene Telegram bot runs a token airdrop. Beneath the chat transport
and the SQL calls sits a small, sequential progression engine, and this
project models it in Dafny:

- a **user registry**: registration, the `GRAPH` referral code, and the wallet address check;
- a **task tracker**: five task kinds seeded lazily per user, completion flags, and the progress percentage and bar;
- a **quiz** of three questions with a pass mark of `ceil(3/2) = 2`;
- a **reward dispenser**: +30 to a referrer when a referral link first applies, and +100 for an airdrop claim once every task is done.

`index.js` holds the full engine and is modelled as the class `Engine.Bot`.
`bot.js` is an earlier variant, modelled as `EarlyBot.Bot`. It has
registration, the seeded task list, the reward table and referral linking,
but no wallet, quiz, completion or claim handler.

The modules are:

- `Text`: the JavaScript built-ins the engine relies on. These are `toString` on a non-negative safe integer (below 2^53), `trim` with JavaScript's white-space set, `length` in UTF-16 units, and `repeat`.
- `Tasks`: the task kinds with their names and rewards (identical in both files: `bot.js:216-249`), task rows, seeding, the completion UPDATE, and the whole `airdrop_tasks` table.
- `Progress`: `Math.round` on non-negative values as exact half-up rounding, the percentage, and the ten-block bar.
- `AirdropScreen`: the `showAirdropTasks` loop, which builds the task lines and buttons.
- `Users`: the `users` table.
  - the referral code, also identical in `bot.js:100-102`;
  - registration, the wallet check, the referral link and the claim, each as a function from the table before to the outcome and the table after;
  - the table's invariants, with lemmas that each transition keeps them.
- `Quiz`: the question bank, one answer step, and the verdict.
- `TwitterConfirm`: the `confirm_twitter` handlers as written, next to a per-user confirmation.
- `Engine`: `index.js` as one object.
  - Each handler is a method whose `ensures` gives the whole new state in terms of the functions above.
  - Every handler method keeps `Valid()`. The `Apply*` steps and `ShowTasks` do not mention it. `ShowTasks` changes nothing, and the handlers call an `Apply*` step only after proving, by the invariant lemma on the old state, that its new state is valid.
  - `Valid()` says:
    - every code is generated from its owner's id;
    - every referrer is another registered user;
    - every balance equals 30 per referred user plus 100 if the airdrop was claimed;
    - every claim is backed by a full, completed checklist;
    - every stored checklist holds the five kinds in seeding order;
    - every quiz session points at a question of the bank.
  - The methods that touch tasks also guarantee `FlagsMonotone`: a completed flag never goes back to false.
- `EarlyBot`: `bot.js` as one object.
  - Its invariant is stronger: nobody has ever claimed, every balance is exactly the referral bonuses earned, and every stored checklist is exactly the five seeded pending rows.
  - So its list always shows 0% and never offers the claim button.
  - As in `Engine`, every handler method keeps the invariant. `ApplyLink` and `ShowSeededList` are steps that do not mention it; `ShowSeededList` changes nothing.

The store is abstracted as maps keyed by user id, with Telegram ids as
positive integers. A referral code lookup may return any user holding that
code. Codes collide from seven-digit ids on (`Users.ReferralCodesCollide`),
and SQL does not order the rows, so the lookup is nondeterministic
(`Users.Resolves`).

`index.js:244` accepts a wallet address once its trimmed length reaches 32
UTF-16 units, so `"sol"` followed by 29 characters is accepted.
`Users.WalletLengthBoundary` shows that 31 characters are refused and 32 are
accepted.

## Model

| member | source | states |
|---|---|---|
| Text.DecimalString | index.js:114 | `userId.toString()` is a non-empty string of digits with no leading zero for a positive id |
| Text.ParseDecimalString | index.js:114 | reading the decimal string back as a number gives the number (round trip) |
| Text.DecimalStringInjective | index.js:114 | distinct numbers have distinct decimal strings |
| Text.DecimalLengthBelow | index.js:114 | a number below 10^k has at most k digits |
| Text.DecimalLengthAbove | index.js:114 | a number of at least 10^k has more than k digits |
| Text.SkipSpaces | index.js:241 | the scan from the front stops at the first character that is not JavaScript white space; everything it skips is white space |
| Text.SkipSpacesBack | index.js:241 | the scan from the back stops after the last character that is not white space; everything it skips is white space |
| Text.Trim | index.js:241 | `trim()` is a contiguous slice of the input; only white space is dropped at either end; the result neither starts nor ends with white space |
| Text.TrimIdempotent | index.js:241 | trimming twice is trimming once |
| Text.TrimOfTrimmed | index.js:241 | a string without white space at either end is its own trim |
| Text.Utf16Length | index.js:244 | `length` counts UTF-16 units: between one and two per character, exactly one each when all characters are in the Basic Multilingual Plane |
| Text.Utf16LengthAppend | index.js:244 | appending a character adds two units exactly when it lies beyond the Basic Multilingual Plane, and one otherwise |
| Text.Repeat | index.js:389 | `c.repeat(n)` has length n and every character is c |
| Progress.RoundHalfUp | index.js:384 | `Math.round(n/d)` for non-negative values: the result r satisfies r - 1/2 <= n/d < r + 1/2 |
| Progress.RoundHalfUpUnique | index.js:384 | exactly one integer satisfies those bounds, so the rounding is fully specified by them |
| Progress.Percent | index.js:382-384 | no percentage (NaN) exactly when there are no rows; at most 100; 100 when all are done and 0 when none is |
| Progress.PercentBounds | index.js:384 | the rounded percentage of `completed` out of `total` stays within 0..100 and hits both ends exactly |
| Progress.FullPercentIffAllDone | index.js:384 | with fewer than 200 rows the percentage is 100 if and only if every row is completed |
| Progress.RoundsUpToFull | index.js:384 | from 200 rows on, 199 of 200 already reads 100% |
| Progress.PercentMonotone | index.js:384 | more completed rows never show a lower percentage |
| Progress.FilledBlocks | index.js:387-388 | the filled block count is the percentage rounded to tens (within 5 of 10·f) and at most 10 |
| Progress.FullBar | index.js:388 | the bar is full if and only if the percentage is at least 95 |
| Progress.Bar | index.js:387-389 | the bar has 10 characters: filled ones first, then empty ones, split at the filled block count; it is empty for NaN |
| Progress.FiveTaskProgress | index.js:382-388 | with five rows each completed task adds 20% and two blocks |
| Tasks.ParseKind | index.js:332-353 | the switch on a task type recognises a kind only by that kind's own key |
| Tasks.ParseKey | index.js:332-353 | every kind is recognised by its key, so the five keys are distinct |
| Tasks.KeysDistinct | index.js:295-301 | different kinds have different keys, and the seeding order lists each kind once |
| Tasks.TaskName | index.js:434-449 | `getTaskName` returns the default name exactly for an unknown type |
| Tasks.TaskReward | index.js:452-467 | `getTaskReward` is 0 exactly for an unknown type and otherwise 10, 15 or 30 |
| Tasks.RewardTable | index.js:452-467 | the rewards are 10, 15, 15, 30, 30 for the five kinds |
| Tasks.RewardsAddUp | index.js:452-467 | the rewards of a full checklist add up to 100, the amount the claim pays |
| Tasks.Seeded | index.js:288-312 | a user without rows gets the five kinds, all pending, in seeding order; existing rows are kept as they are |
| Tasks.SeededIdempotent | index.js:293-302 | seeding twice is seeding once |
| Tasks.CountCompleted | index.js:382 | the count is at most the number of rows and equals it exactly when every row is completed |
| Tasks.CountZero | index.js:382 | the count is 0 exactly when no row is completed |
| Tasks.SumCompleted | index.js:805-810 | SUM is NULL exactly when there are no rows, and equals the row count exactly when there are rows and all are completed |
| Tasks.FirstOfType | index.js:326-330 | `task[0]` is absent exactly when no row has the type, and otherwise is a row of that type |
| Tasks.FirstOfTypeWellFormed | index.js:326-330 | in a seeded checklist the row of a kind is the row at that kind's seeding position |
| Tasks.FirstOfTypeSkips | index.js:326-330 | the first row of a type is found after rows of other types |
| Tasks.MarkCompleted | index.js:477-481 | the UPDATE keeps every row's type and sets completed exactly on the rows of that type, leaving the others unchanged |
| Tasks.MarkCompletedIdempotent | index.js:518-522 | completing a task twice is completing it once |
| Tasks.MarkCompletedCommutes | index.js:635-639 | tasks may be completed in any order |
| Tasks.MarkCompletedKeepsShape | index.js:718-722 | an UPDATE keeps a seeded checklist seeded, keeps a complete one complete, and never lowers the count |
| Tasks.CountMonotone | index.js:382 | flags that only go from false to true never lower the count |
| Tasks.CompletingEveryKind | index.js:295-301 | completing each of the five kinds completes a seeded checklist |
| Tasks.WithSeeded | index.js:288-302 | seeding changes only that user's rows and changes nothing when they exist |
| Tasks.WithCompleted | index.js:477-481 | an UPDATE changes only that user's rows, by MarkCompleted |
| Tasks.SeedingAndMarkingAreMonotone | index.js:718-722 | seeding and every UPDATE only set flags, never reset one or remove a row, and keep every checklist seeded |
| Tasks.SeedingIsMonotone | index.js:293-302 | seeding keeps every existing row as it is and keeps the table seeded |
| Tasks.MarkingIsMonotone | index.js:477-481 | a completion UPDATE keeps every row and its type and resets no flag |
| Tasks.MarkingKeepsTableWellFormed | index.js:477-481 | a completion UPDATE keeps every stored checklist seeded |
| AirdropScreen.PendingButtonsExact | index.js:407-411 | a task button is offered exactly for a row of that type that is pending |
| AirdropScreen.PendingButtonsCount | index.js:407-411 | there is one task button per pending row |
| AirdropScreen.ClaimButtons | index.js:415-420 | the claim button is offered exactly when every row is completed, including when there are no rows |
| AirdropScreen.ShowAirdropTasks | index.js:380-431 | the counts, percentage and bar of the rows; one line per row in order; the task buttons, then the claim button exactly when all are done, then the back button when asked for |
| AirdropScreen.TaskLinesAndButtons | index.js:400-412 | the walk over the rows yields one line per row in row order and one task button per pending row, in row order |
| AirdropScreen.NothingDoneShowsNoProgress | bot.js:171-206 | a list with nothing done shows 0 completed, 0%, an empty bar, one button per task and no claim button |
| Users.ReferralCode | index.js:113-115 | the code is `GRAPH` followed by the first min(6, digits) characters of the id's decimal string |
| Users.ReferralCodeInjectiveBelowMillion | index.js:114 | ids below 1,000,000 get distinct codes |
| Users.ReferralCodeDropsLastDigit | index.js:114 | from seven digits on, the code ignores the id's last digit |
| Users.ReferralCodesCollide | index.js:114 | ids 1234567 and 1234568 share the code `GRAPH123456` |
| Users.NewUser | index.js:83-101 | a new row has balance 0, no wallet, no referrer, no claim and the generated code |
| Users.Registered | index.js:77-106 | a row is added only for an unknown id; existing rows, including that id's, are unchanged |
| Users.RegisteredIdempotent | index.js:81-106 | registering again, with any profile fields, changes nothing |
| Users.CheckWallet | index.js:241-244 | an address is accepted exactly when the trimmed text starts with `sol` and has at least 32 UTF-16 units; the trimmed text is what is stored |
| Users.WalletLengthBoundary | index.js:244 | for a plain `sol…` address with no surrounding space, acceptance is exactly length >= 32 |
| Users.WalletIgnoresSurroundingSpace | index.js:241 | surrounding white space changes neither the verdict nor the stored address |
| Users.WithWallet | index.js:248-250 | the UPDATE sets that user's wallet and nothing else; it is a no-op for an unknown id |
| Users.FindReferrer | index.js:750-754 | the lookup returns a user holding the code, or nothing exactly when nobody holds it |
| Users.Link | index.js:754-771 | the link applies exactly to a found referrer other than the user, when the user is registered and not yet referred; it records the referrer and adds exactly 30 to their balance; in every other case nothing changes |
| Users.LinkOnce | index.js:762 | once a user is linked, every later attempt, with any code, changes nothing |
| Users.NewUserNeverLinked | index.js:754-787 | a user without a row is never linked and nobody is credited |
| Users.RegisteredNewcomerIsLinked | index.js:758-771 | after registration, a newcomer with another user's code is linked and that user gets +30 |
| Users.Claim | index.js:805-838 | +100 and the claimed flag exactly when there are rows, all completed, and the user has not claimed; already claimed and incomplete (including no rows) are reported and change nothing |
| Users.ClaimOnce | index.js:816-819 | after a granted claim, claiming again reports already claimed and credits nothing |
| Users.ReferralsUnchanged | index.js:694 | a change that keeps every `referred_by` keeps every referral count |
| Users.RegisteredKeepsInvariants | index.js:83-101 | registration keeps codes, referrers, balances and claims consistent |
| Users.AccountedWhenReferralsKept | index.js:83-101 | a change that keeps every referrer, balance and claim, and adds only empty rows, keeps every balance accounted |
| Users.WellFormedWhenCodesKept | index.js:83-101 | a change that keeps every code and referrer, and adds only rows with the generated code and no referrer, keeps the table well formed |
| Users.ClaimsBackedWhenClaimsKept | index.js:248-250 | a change that sets no new claim keeps every claim backed |
| Users.WithWalletKeepsInvariants | index.js:248-250 | storing a wallet keeps the invariants |
| Users.LinkReferrals | index.js:764-771 | a link adds the user to the referrer's referral set and changes no other set |
| Users.LinkKeepsInvariants | index.js:764-771 | a link keeps the invariants |
| Users.LinkKeepsAccounted | index.js:769-771 | after a link every balance is still 30 per referral plus 100 per claim |
| Users.LinkKeepsWellFormed | index.js:764-766 | the recorded referrer is another registered user and no code changes |
| Users.ClaimKeepsInvariants | index.js:818-820 | a claim keeps the invariants, including every claim being backed by a completed checklist |
| Users.ClaimKeepsAccounted | index.js:818-820 | a granted claim adds exactly the 100 that the claimed flag accounts for |
| Users.TaskChangesKeepClaimsBacked | index.js:477-481 | seeding and completion updates keep every claim backed |
| Quiz.PassMark | index.js:630 | `Math.ceil(n/2)`: the smallest m with 2m >= n |
| Quiz.Answered | index.js:613-624 | an answer moves to the next question and adds one to the score exactly when it is the right option |
| Quiz.Run | index.js:603-624 | after k answers from a fresh session, k questions are answered and at most k are right |
| Quiz.RunScoresHits | index.js:616-617 | the score is the number of positions answered with the right option |
| Quiz.PassIffTwoRight | index.js:630 | a full run passes exactly when at least two answers are right |
| Quiz.PerfectRunPasses | index.js:545-577 | answering 1, 1, 2 passes |
| Quiz.AtMostOneRightFails | index.js:630 | a run with at most one right answer fails |
| TwitterConfirm.WithHandler | index.js:516 | each press appends a handler capturing the presser, after the earlier ones |
| TwitterConfirm.ConfirmAsWritten | index.js:516-522 | a confirmation marks the task of the user captured by the oldest handler, whoever pressed, and nothing else; it does nothing when no handler exists |
| TwitterConfirm.ConfirmationGoesToFirstPresser | index.js:502-536 | users 1 and 2 press the Twitter task and user 2 confirms: user 1's task is completed and user 2's stays pending |
| TwitterConfirm.Confirmed | index.js:518-522 | a confirmation marks the presser's Twitter task and nobody else's |
| TwitterConfirm.ConfirmationGoesToPresser | index.js:518-522 | the presser's Twitter row is completed afterwards, and confirming twice is confirming once |
| Engine.Dispatch | index.js:330-356 | already done exactly when the row is missing or completed; otherwise each type selects its own action, the channel task completes exactly for a member, and an unknown type is reported |
| Engine.DispatchKnowsSeededTypes | index.js:350-352 | on a seeded checklist the unknown-type branch is unreachable |
| Engine.MarkAll | index.js:477-481 | after a sequence of UPDATEs a row is completed exactly when it was before or its type was updated |
| Engine.ClaimNeverGrantedAsWritten | index.js:805-810 | with only the UPDATEs the handlers issue, `connect_wallet` stays pending, the checklist is never complete and every claim is refused |
| Engine.EveryTaskDoneGrantsClaim | index.js:805-820 | once all five kinds are completed, a registered user who has not claimed is granted +100 |
| Engine.MarkingEveryKindCompletes | index.js:805-810 | updating every kind completes any seeded checklist |
| Engine.Bot.constructor | index.js:10-16 | the engine starts with empty tables, no quiz and no handler, and is valid |
| Engine.Bot.RegisterUser | index.js:69-110 | the users table becomes `Registered(old)`; nothing else changes; validity is kept |
| Engine.Bot.SubmitWallet | index.js:240-268 | returns the check's verdict; a valid address is stored, an invalid one changes nothing; tasks are untouched |
| Engine.Bot.SubmitWalletCompletingTask | index.js:240-254 | as SubmitWallet, and a stored address also completes `connect_wallet`; flags stay monotone |
| Engine.Bot.StoreWallet | index.js:248-250 | the users table becomes `WithWallet(old)`; nothing else changes; validity is kept |
| Engine.Bot.MarkTask | index.js:477-481 | the tasks table becomes `WithCompleted(old)`; flags stay monotone; validity is kept |
| Engine.Bot.EnterAirdrop | index.js:283-318 | the tasks table becomes `WithSeeded(old)`, so a user without rows gets the five seeded rows; the list shown is that of the user's rows |
| Engine.Bot.SeedTasks | index.js:293-302 | the tasks table becomes `WithSeeded(old)`; a user without rows gets exactly the five seeded rows; validity is kept |
| Engine.Bot.CompleteTask | index.js:320-368 | the action is `Dispatch` of the user's rows; joining completes `join_channel`, the referral flow completes `invite_friend`, the quiz starts fresh, the Twitter task registers a handler, the wallet flow only prompts; everything else changes nothing and shows the list |
| Engine.Bot.JoinChannelTask | index.js:470-481 | a member's `join_channel` row is completed and the refreshed list is that of the new rows |
| Engine.Bot.AwaitTwitterConfirmation | index.js:502-516 | a handler capturing the user is appended after the earlier ones; tasks are untouched and the list is shown |
| Engine.Bot.ShowTasks | index.js:359-363 | the refreshed list is that of the user's current rows |
| Engine.Bot.EnterReferral | index.js:684-728 | shows the user's generated code, the number of users they referred and 30 times that number, which never exceeds their balance; completes `invite_friend` |
| Engine.Bot.ConfirmTwitterAsWritten | index.js:516-536 | the tasks table becomes `ConfirmAsWritten`: the oldest handler's user is marked; no answer when no handler exists |
| Engine.Bot.ConfirmTwitter | index.js:516-536 | the tasks table becomes `Confirmed`: the presser's own Twitter task is marked and their list shown |
| Engine.Bot.StartQuiz | index.js:540-581 | a fresh session replaces any running one, and question 1 is shown |
| Engine.Bot.AnswerQuiz | index.js:603-671 | without a session nothing changes; otherwise the session becomes `Answered`; after the last question the verdict is `Passed`, only a pass completes `complete_quiz`, and the session is removed either way |
| Engine.Bot.LinkReferral | index.js:750-784 | the referrer found holds the code, and (outcome, users) is `Link` of the old table; validity, including exactly-once credit, is kept |
| Engine.Bot.ApplyLink | index.js:754-771 | the guarded UPDATEs perform `Link` |
| Engine.Bot.StartWithCode | index.js:744-797 | link first, then register; a user without a row is never linked |
| Engine.Bot.StartWithCodeRegisteringFirst | index.js:744-797 | register first, then link; a newcomer whose code resolves to another user is linked to them |
| Engine.Bot.ClaimAirdrop | index.js:800-844 | (outcome, users) is `Claim` of the old table and the user's rows; validity is kept, so every claim stays backed and paid once |
| Engine.Bot.ApplyClaim | index.js:805-838 | the count check, the flag check and the UPDATE perform `Claim` |
| EarlyBot.Bot.constructor | bot.js:5-11 | the earlier bot starts with empty tables and is valid |
| EarlyBot.Bot.RegisterUser | bot.js:56-97 | the users table becomes `Registered(old)` and tasks are untouched |
| EarlyBot.Bot.ShowAirdropTasks | bot.js:143-213 | the tasks table becomes `WithSeeded(old)`; the user's rows are the five seeded pending rows; the list shows 0 done, 0%, no claim button and no back button |
| EarlyBot.Bot.SeedTasks | bot.js:148-162 | the tasks table becomes `WithSeeded(old)` and the user's rows are the five seeded pending rows |
| EarlyBot.Bot.ShowSeededList | bot.js:164-206 | the list of the seeded rows shows 0 done, 0% and no claim button |
| EarlyBot.Bot.LinkReferral | bot.js:369-400 | the referrer found holds the code, and (outcome, users) is `Link` of the old table |
| EarlyBot.Bot.ApplyLink | bot.js:373-390 | the guarded UPDATEs perform `Link` |
| EarlyBot.Bot.StartWithCode | bot.js:363-416 | link first, then register; a user without a row is never linked |

## Left out

- Telegram transport is not modelled: replies, Markdown texts, keyboards, `answerCbQuery`, the `sendMessage` notice to a referrer, `bot.launch` and signal handling. Replies appear only as the `Reply`, `TaskView` and outcome values the methods return.
- Scene and stage routing is not modelled.
  - Which handler receives an update is not decided: `bot.start` versus `hears` for `/start CODE`, a scene's handlers versus the global text handler.
  - Whether the wallet scene is active is not tracked.
  - Each handler is a method that may be called at any time.
- SQL driver failures caught in `catch` blocks are treated as "no state change". The only error outcome modelled is the claim on a user without a row (`Failed`), where the code throws on `airdropClaimed[0]`.
- The stored `telegram_id` is assumed to compare equal to `ctx.from.id` in the self-referral test, as if both were numbers. A driver that returns it as a string is not modelled.
- The rows of the `airdrop_tasks` `SELECT`s, which have no `ORDER BY`, are assumed to come back in insertion order, since the task list shows them in that order. The `users` lookup by referral code is not given an order: it may return any holder of the code, so that its properties hold for whichever colliding row the database returns first.
- Telegram ids are assumed to be below 2^53, where a JavaScript `Number` is exact; `UserId` is unbounded. Precision loss above 2^53 and the exponent form `toString` uses from 10^21 on are not modelled.
- Concurrency is not modelled. Check-then-write races in registration, linking and the claim cannot occur in this sequential model.
- Floating point is not modelled. `Math.round(completed / total * 100)` and `Math.round(progress / 100 * 10)` are exact half-up rounding of the rational values.
- `getChatMember` becomes the `memberStatus` parameter. Its failure is not modelled (`index.js:495-498` only replies).
- The quiz's question and option texts are not modelled. The quiz session is keyed by user id; Telegraf keys it by user and chat. As in the code, the answer index is not checked against the number of options.
- Display-only and navigation handlers are not modelled: `showBalance`, `showStats`, `showAbout`, `showBuyTokens`, tokenomics, the buy handlers, `check_balance`, `refresh_balance`, the `connect_wallet` button (it only opens the wallet scene), `cancel_wallet`, `exit_airdrop`, `exit_referral` and `copy_referral_link`.
- `bot.js` `showReferrals` is a read-only query. The same screen of `index.js` is modelled by `Engine.Bot.EnterReferral`.
- `joined_at` timestamps and console logging are not modelled.

## Findings

| source | as written | input that shows it | evidently intended | confidence | as-written member | corrected member |
|---|---|---|---|---|---|---|
| index.js:744-787 | `/start CODE` tries the referral link before `registerUser`, and the link requires an existing row | user 2, not yet registered, sends `/start GRAPH1` while user 1 exists: user 2 is not linked and user 1 gets nothing | a newcomer arriving by a referral link is linked and the referrer credited (the referrer notice says a new user registered) | high, not executed | Engine.Bot.StartWithCode | Engine.Bot.StartWithCodeRegisteringFirst |
| index.js:240-254 | no handler ever marks `connect_wallet` completed; the wallet handler only stores the address | any user: after every handler's UPDATE the checklist still has `connect_wallet` pending, so the claim button never appears and `claim_airdrop` always answers incomplete | storing a valid wallet completes the wallet task, so the airdrop can be claimed | high, not executed | Engine.ClaimNeverGrantedAsWritten | Engine.Bot.SubmitWalletCompletingTask |
| index.js:516-522 | each press of the Twitter task registers a global `confirm_twitter` handler capturing that user's id; the oldest handler answers every later confirmation | users 1 and 2 press the Twitter task, then user 2 confirms: user 1's task is completed and user 2's stays pending | a confirmation completes the presser's own Twitter task | high, not executed | TwitterConfirm.ConfirmationGoesToFirstPresser | Engine.Bot.ConfirmTwitter |
