# DisMine admission and billing controller, in Dafny

DisMine is a Discord bot (`bot.py`) that rents Minecraft servers on a Pterodactyl
panel for credits. Under the chat and HTTP plumbing sits a small controller, and
this project models it:

- **Credit ledger.** The `users` table, keyed by Discord id. `Person` objects read
  and write one row each. A `Person` caches, when it is constructed, whether its row
  existed, and that cached answer decides whether the setters write.
- **Billing loop.** `credit_reduction` gives one grace minute, then debits one
  credit per minute while the balance is positive. After every minute it reads the
  stop flag; when the flag is set, it clears it and leaves the loop. The flag is set
  by the `stop` command.
- **Admission.** `start` checks, in order:
  1. the balance (at least 1 credit);
  2. the cap of 4 entries in the in-memory registry `running_servers`;
  3. the user's panel account, found in the cached panel snapshot.

  It then resumes the user's first server, or creates one on the first free
  allocation. It registers the user, runs the billing loop, and removes the
  registry entry when the final suspend answers 204.
- **Registry readers.** `stop`, `remaining` and `queue` all read the registry.
  `queue` keeps a running minimum that ends at "least value + 1" when some value is
  below 999999999, and at 999999999 otherwise.
- **Small pure pieces.**
  - The `daily` grant: 120 credits for premium users, 60 for others.
  - The email-provider allowlist of `register`.
  - The startup sweep `clear_queue`, which suspends every running server except
    ids 1 and 3 and counts the 204 answers.

The files follow that structure:

- `common.dfy`: first-match search, Python's `list.remove`, minimum of a list.
- `ledger.dfy`: the `users` table and `Person`, as classes over a `map<int, Row>`.
- `billing.dfy`: `credit_reduction`.
  - The functions `Loop`/`CreditSession` say what one session does.
  - The method `CreditReduction` performs those steps on a `Person`'s row and is
    proved to agree with `CreditSession`.
- `panel.dfy`: the panel snapshot records, `str()` of an id, and `clear_queue`.
- `admission.dfy`: the `start` decision (`Admit`), and the class `Controller`, which
  holds the registry, the table and the snapshot and has `Start`, `Stop`, `Daily`,
  `Remaining` and `Queue`.
- `register.dfy`: the email allowlist.

The panel's HTTP answers are inputs:
- `PanelReplies` carries the `suspended` attribute from `get_server`, the
  unsuspend status, the id of a created server, and the final suspend status.
- `clear_queue` takes one suspend status per server.
- The `stop` commands that arrive while a session runs are an input sequence
  `stops`: `stops[t]` says a request arrived during minute `t`, where minute 0 is
  the grace minute.

The specification functions without contracts of their own are pinned down by the
lemmas and methods below:
- Ledger: `CreditsOf`, `StopOf`, `HasServerOf`, `PremiumOf`.
- Billing: `FlagAfter`, `Loop`, `CreditSession`.
- Panel: `SelectedIds`, `StoppedCount`.
- Admission: `QueueValue`, `RemainingOf`, `Values` (the queue values in registry order), `Bound`, `QueueWait`.
- Register: `Contains`.

Three facts about the code shape the model:
- The billing loop has no separate warning or stopping phase. After the grace minute
  each debit is followed by one minute and one look at the stop flag, so a 5-credit
  session lasts 6 minutes (`Billing.FiveCreditSession`).
- A final suspend that does not answer 204 leaves the user in the registry
  (`Admission.Release`).
- The cap check is `len(running_servers) == 4`. Because ids are appended only behind
  it, sequential calls keep the registry at 4 entries or fewer
  (`Admission.Controller.Valid`).

## Model

| member | source | states |
|---|---|---|
| Common.FirstIndex | bot.py:461-467 | the index found is the first one whose element satisfies the test, and None means no element does (the `for ... if ...:` scans of `start`) |
| Common.RemoveFirst | bot.py:486 | `list.remove` drops the first occurrence of the id and keeps the other elements in order: the result is the list before that occurrence followed by the list after it; one fewer element, one copy fewer in the multiset |
| Common.RemoveFirstAppended | bot.py:473-486 | removing an id that was just appended to a list without it gives the old list back |
| Common.SeqMin | bot.py:587-596 | the minimum is an element of the list and no element is smaller |
| Ledger.Person.constructor | bot.py:136-142 | caches whether the row existed, and caches `premium` as the row's flag, False when there is no row |
| Ledger.Person.Init | bot.py:144-150 | inserts `(amount, premium, False, False)`; fails and changes nothing when the id is already taken |
| Ledger.Person.GetCredits | bot.py:152-158 | a missing row reads as 0 credits |
| Ledger.Person.UpdateCredits | bot.py:160-166 | on an existing row adds `amount` to `credits` and leaves the other fields and rows alone; on a missing row inserts `(amount, False, False, False)` |
| Ledger.Person.SetServerStatus | bot.py:168-173 | returns False and changes nothing when the row did not exist at construction; otherwise writes only `server_status` |
| Ledger.Person.HasServer | bot.py:175-180 | False when the row did not exist at construction |
| Ledger.Person.SetStopServer | bot.py:182-186 | returns False and changes nothing when the row did not exist at construction; otherwise writes only `stop_server` |
| Ledger.Person.StopServer | bot.py:188-193 | False when the row did not exist at construction |
| Ledger.Person.SetPremium | bot.py:195-201 | updates `premium` of an existing row, otherwise inserts a row with 0 credits; the cached `premium` takes the new value |
| Billing.FlagMonotone | bot.py:115-120 | a stop flag that nobody clears stays raised from one minute to the next |
| Billing.LoopFacts | bot.py:109-122 | from any iteration on: one credit per minute, the loop leaves with the flag cleared, exactly at the first raised flag or at 0 credits, and with the exact list of notices |
| Billing.BillingDebitsOnePerTick | bot.py:106-120 | after the grace minute the balance drops by one per minute, never below 0, and the session lasts at most the starting balance plus one minute |
| Billing.BillingExit | bot.py:109-122 | the loop ends at a stop request seen after a minute, or when the balance is 0; no earlier minute saw a request; the flag is left False |
| Billing.BillingNotices | bot.py:112-124 | "running out" is sent exactly when the last debit reached 0 with no stop requested before it; "will stop" only when the flag was up before the first debit; "stopped" comes last |
| Billing.BillingStopHonoured | bot.py:118-120 | a stop requested by minute t ends the session by minute max(t, 1) + 1 |
| Billing.BillingRunsDown | bot.py:109-124 | with no stop request, a session spends its whole balance in balance + 1 minutes and sends "running out" then "stopped" |
| Billing.FiveCreditSession | bot.py:104-124 | 5 credits and no stop: 6 minutes, balance 0, two notices |
| Billing.StopDuringGrace | bot.py:106-120 | a stop during the grace minute ends the session after one debit, with "will stop" then "stopped" |
| Billing.CreditReduction | bot.py:104-126 | performing the loop on the row yields exactly `CreditSession` of the row's credits and stop flag; the row ends with the session's balance and a cleared flag, the rest of the table is unchanged, and the suspend status is returned |
| Billing.DebitLoop | bot.py:109-120 | the `while` loop agrees with `Loop` from the first debit on |
| Billing.DebitTick | bot.py:110-120 | one iteration: debit 1, the notices for the new balance and flag, then leave exactly when the flag is up after the minute, clearing it |
| Panel.Decimal | bot.py:462 | `str(id)` is a non-empty string of decimal digits with no leading zero except for 0 itself |
| Panel.DecimalValue | bot.py:462 | `str(id)` spells the id: the digits read back, most significant first, give the id |
| Panel.DecimalInjective | bot.py:462 | distinct ids have distinct usernames, so the username test matches at most one user |
| Panel.SelectedIdsExact | bot.py:90-92 | the sweep suspends an id exactly when some running server with that id, other than 1 and 3, is listed |
| Panel.ReservedServersKept | bot.py:91 | servers 1 and 3 are never suspended |
| Panel.StoppedAtMostSelected | bot.py:93-95 | the reported count is at most the number of suspends sent |
| Panel.StoppedAllWhenAllSucceed | bot.py:93-95 | when every suspend answers 204 the count equals the number sent |
| Panel.ClearQueue | bot.py:88-101 | the loop sends its suspends to exactly `SelectedIds` and counts exactly `StoppedCount` |
| Admission.AccountOf | bot.py:461-463 | the panel id of the first user whose username matches, None when no user matches |
| Admission.OwnedServer | bot.py:466-467 | the first cached server of that owner, None when it owns none |
| Admission.FreeAllocation | bot.py:506-507 | the first allocation not assigned, None when all are assigned |
| Admission.Admit | bot.py:453-551 | credits below 1 reject first and a full registry rejects next; admission needs a matching panel account; a resume needs a suspended owned server whose unsuspend answered 204; a new server needs no owned server, the ledger flag False, and it takes the first unassigned allocation |
| Admission.NoAllocationIffAllAssigned | bot.py:504-545 | for a user without a server, `start` provisions or reports no allocation, the latter exactly when every allocation is assigned |
| Admission.ExistingServerOutcomes | bot.py:466-502 | for a user with a server: resume exactly when suspended and the unsuspend answered 204; "already active" exactly when not suspended; the 500 fault exactly on status 500; never a new server |
| Admission.Release | bot.py:481-486 | on a 204 suspend the registry loses its first copy of the id and keeps the order of the rest; any other status leaves it as it was |
| Admission.ReleaseRestores | bot.py:473-486 | a session that ends with a 204 suspend leaves the registry as it was before `start` |
| Admission.BoundStep | bot.py:595-596 | each step of the accumulator keeps it at least value + 1, or at the sentinel while no value is below it |
| Admission.RemainingIsQueueValuePlusOne | bot.py:572-575 | `remaining` is 1 when a stop is pending, otherwise balance + 1, i.e. queue value + 1, and at least 1 |
| Admission.QueueAtSentinel | bot.py:586-598 | with 4 registered and no value below 999999999, the accumulator never moves and the wait is 5 × 999999999 |
| Admission.QueueIsLeastRemaining | bot.py:586-598 | with 4 registered and some value below the sentinel, the wait is 5 times the least `remaining` of the registered users |
| Admission.QueueExample | bot.py:586-600 | four sessions with 3, 5, 1 and 7 minutes left give a 5-minute wait; three sessions give no queue |
| Admission.Controller.constructor | bot.py:34 | the registry starts empty |
| Admission.Controller.Start | bot.py:449-551 | a rejection changes neither the registry nor the ledger; an admission runs `CreditSession` on the user's row, marks `server_status` only when a server was created, reports the resumed or created server, and leaves the registry as `Release` of the registry plus the id; the cap and non-negative balances are kept |
| Admission.Controller.Serve | bot.py:473-486 | the session part of `start`: append, mark, billing, removal on 204 |
| Admission.Controller.Unregister | bot.py:481-486 | the registry becomes `Release` of itself: the user's first entry is removed on a 204 suspend, nothing changes otherwise |
| Admission.Controller.Stop | bot.py:557-562 | for a registered user with a row sets only `stop_server`; for anyone else changes nothing |
| Admission.Controller.Daily | bot.py:430-437 | grants 120 to a premium user and 60 otherwise, added to an existing row or inserted as a new row |
| Admission.Controller.Remaining | bot.py:568-577 | a value exactly for registered users, at least 1 minute |
| Admission.Controller.Queue | bot.py:583-600 | the accumulator loop reports exactly `QueueWait` of the registered users' values |
| Register.ContainsIff | bot.py:371 | Python's `in` on strings holds exactly when the provider occurs at some position |
| Register.DomainField | bot.py:371 | `split('@')[1]` is None exactly when there is no '@', and never holds an '@' |
| Register.DomainOfAddress | bot.py:371 | for `local@field` followed by nothing or by '@...', the field taken is exactly `field` |
| Register.EmailAllowed | bot.py:350-375 | allowed exactly when the address has an '@' and some listed provider occurs in the field |
| Register.AllowedIff | bot.py:350-375 | for `local@domain`: allowed exactly when some provider occurs at some position of the domain |
| Register.NoSeparatorRefused | bot.py:370-375 | an address without '@' is refused (the IndexError is skipped) |
| Register.ShortFieldRefused | bot.py:350-375 | a field shorter than four characters, an empty one included, is refused |
| Register.ProviderLengths | bot.py:351-369 | every provider name has at least four characters |
| Register.GmailAllowed | bot.py:350-375 | any domain starting with "gmail" passes, a look-alike such as "gmail.example" included |

## Left out

- Discord messaging and UI: `RegisterButtons`, the other commands' replies, presence. The notices of the billing loop are kept as a list of `Notice` values.
- Pterodactyl HTTP calls: `create_server`, `create_user`, `get_*`, `suspend_server`, `unsuspend_server`, `delete_*`. These are network calls; only their answers enter the model, as inputs.
- SQLite and the error handling of `db_get`/`db_exec`: the table is a map. The one deterministic storage failure is kept: an insert of an existing id fails on the primary key. Other storage faults are not modelled.
- The `last_online` column: it holds a clock value that the core never reads.
- asyncio: concurrent `start` calls and interleaving across awaits. Each handler is a single sequential call.
- Credit grants to the user's own row while a session runs (a `daily` in the middle of a session): a session's balance is changed by the loop alone.
- `update_cache`: it replaces the snapshot wholesale from network data. `Controller.snapshot` is the result of one refresh.
- `on_command_error` cooldown messages, account-age check, `.env` bootstrap, `on_ready`, `purge_servers` (an empty placeholder), `withdraw` (remote deletion).
- Foreign calls that raise: the model takes every panel call and every direct message to return normally. An error answer from `get_server` or `create_server` makes the `['attributes']` lookup raise (bot.py:469, bot.py:528), so `start` ends before `running_servers.append`; `PanelReplies` has no such failure case. A `ctx.author.send` that raises because the user's direct messages are closed (bot.py:113, 116, 124) ends `credit_reduction` mid-session, with no suspend sent and the id left in `running_servers`; `Controller.Start` always finishes the session and applies `Release`.
- The `credits` command (bot.py:424-425): it only replies with `Person.GetCredits`.
- Billing.CreditReduction: requires that the row existed when the `Person` was constructed. The only caller, `start`, guarantees this through its credit check. Without it, a row inserted later would make every debit a failed insert, and the loop would never end.
