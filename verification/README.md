# Paylink backend: a verified model

This project models the parts of the Paylink backend whose correctness depends on more than one
call: the AI gateway that turns a dialogue into a confirmed operation, the search for the beneficiary
a user means, the one-time step-up tokens, the rate limiter, the ledger watch, the redaction of logged
data, double-entry postings and agent payouts, the withdrawal fee, the history learning of the agent
chat, and the web-socket registries.
To verify the project: `dafny verify dfyconfig.toml`.

## Layout

Each stateful component comes as a class whose methods update its fields the way the code does; the
contract of each method equates the new state with a function of the old one, and the lemmas beside
it are about that function, one request or whole runs.

- `Assistant.dfy` (state machine), `Gateway.dfy` (the tables updated in place), `SlotFilling.dfy` (what
  one message leaves missing), `AssistantLaw.dfy` (what one request may do), `AssistantAnswers.dfy` (what
  each request is answered and must do), `AssistantRuns.dfy` and `DialogueRuns.dfy` (all runs),
  `SlotTables.dfy` (which slot tables the runs honour): the AI gateway. The theorems about runs hold of
  every run whose steps keep the law; `GatewayIsLawful` says that every run of the gateway does.
- `Beneficiaries.dfy`, `NameMatches.dfy` (who is chosen, told from names, partners and numbers),
  `Synonyms.dfy`, `FirstMaximum.dfy`, `Slots.dfy`, `Text.dfy`: candidates, scores, payloads and the small
  text functions they use.
- `StepUp.dfy`, `RateLimit.dfy`, `LedgerHealth.dfy`, `Redaction.dfy`.
- `Ledger.dfy`, `Payouts.dfy`, `Fees.dfy`, `Rounding.dfy`: money.
- `AgentChat.dfy`, `Registries.dfy`, `Options.dfy`.

## Conventions

- Requests are served one at a time, and a request that raises is rolled back to its last commit.
  `load_pending_action` takes no lock, so the at-most-once results are about serialised requests.
- Three requests act in two steps and may be cut short in between: a payout confirmation, whose journal
  is committed by `post_journal`; the confirmation of a transfer, which the transfer core commits itself
  (`app/routers/wallet/transfer.py:1645`) before its action is marked executed; and any request that is
  counted by the rate limiter, whose increment and expiry are two commands. The flag `cut` of such a
  request says that it dies there.
- The runs of the gateway are over the rows the gateway writes. Other endpoints write the same tables, for
  example the transfer route of `app/routers/wallet/transfer.py`.
- Only what `app/ai/parser.py:112-210` can read counts as a message in the results about slot tables: the
  heuristics of each family fill fixed keys, while synonyms and the language model may give any intent
  (`Readable`). The slot table is read anew for each message, so it may change during a run.
- A payload value is its text; the empty string stands for a missing key, `None` and `""`, which every
  test on payloads treats alike. `Decimal(text)`, the `SequenceMatcher` ratio, e-mail validation, what
  the heuristics and the language model read in a message, and whether the transfer core accepts a
  transfer are parameters: every theorem holds for every choice of them.
- The state machine takes the search for a beneficiary as a parameter too; `Gateway.Store` runs it with
  the search of `Beneficiaries.dfy`, `SearchWith`.
- The rows that the two beneficiary queries return are an input of a message, in query order.
- Decimals and scores are exact (`real`), rounded half to even where the code rounds.
- Text is ASCII: `strip`, `lower` and whitespace squeezing are defined for it.
- Balances of BIF wallets are counted as debits minus credits. The sign is a choice: elsewhere
  (`app/services/wallet_service.py:656-671`) a user is paid by a credit, under which `bif_transfer` moves
  money from the payee to the payer. Only the sum over all wallets does not depend on it.
- Row ids are positions in their table. Hashes are modelled by the text they are taken of.
- `uuid4` is taken to give unused transaction ids (`FreshIds`).

## What the proofs found

- A confirmed transfer that is cut short after the core's commit leaves the transfer in place and its
  action pending, and since the core is called without an idempotency key, a second confirmation sends
  it again: `CutRunSendsTwice`. Every transfer belongs to an executed action if and only if no accepted
  transfer was cut short (`GatewayTransfersSentIffUncut`); whatever is cut, every transfer was confirmed in
  time by the owner of a pending, complete action (`TransferIsConfirmed`), and an action has one
  transfer for each of its cut ones and one more once it is executed (`AtMostOneMoreThanCuts`).
- A transfer's missing list is exact in every run if and only if the slot table requires no key that the
  payload does not store but that a message can say or a conversation can save, such as `note` or
  `beneficiary_match_source`, nor `beneficiary_selection` itself: `ExactnessCondition`.
- A transfer or a beneficiary can be created without a required slot exactly when what the table requires
  beyond its payload can all be said in one message, what a transfer has saved about the match apart and
  with no account required of a beneficiary; a cash request whenever the table requires more than its
  command insists on: `CompletenessCondition`. So requiring `amount` of `beneficiary.add`
  creates beneficiaries whose action holds no amount, while requiring the `recipient_email` that its table
  already lists as optional, or `account_ref`, would keep any beneficiary from being created, since no
  message is read for them: `UnsaidBlocksBeneficiaries`.
- The status `confirmed` is never reached by an action that a message created: `NeverJustConfirmed`.
- With Redis in use an issued step-up token is accepted twice, once per copy; it is accepted at most once
  exactly when Redis is not in use: `IssuedTokenPresentations`, `OnceOnlyIffNoRedis`. The router
  dependency is switched off by a constant (`app/dependencies/step_up.py:20`); the model is of the
  check it would run.
- `post_journal` commits. A payout confirmation cut short right after it leaves the order unpaid for
  good, while the money is conserved: `OrderIsPaidUnlessCut`, `OrdersPaidIff`, `PayoutConservation`.
- A request cut short between the rate limiter's increment and expiry leaves a key that never expires; the
  quotas hold all the same: `OldKeysWereCut`, `IntervalQuota`.
- A history row without a name scores 0.96 for any recipient; only then does the second pass over the
  history do something: `SecondPassChangesIff`, `NamelessRowWins`.
- The comment in `bif_transfer` says the sender is debited; the code credits the sender and debits the
  receiver. The model follows the code.
- The credit simulation lets a smaller amount pass whenever a larger one does exactly when the configured
  charge is not negative: `SmallerPassesIffNoDiscount`.

## Model

| member | source | states |
|---|---|---|
| AssistantRuns.Traceability | app/ai/router.py:99-329 | in every run an executed action was created by an earlier message of its owner, allowed and complete as far as its payload stores slots, stayed unchanged and pending until its owner confirmed it before its expiry, a transfer without a cut, and then had the effect its payload says; earlier cut confirmations of a transfer may have had it too |
| AssistantRuns.TracedHoldsAllRequired | app/ai/orchestrator.py:293-322 | such an action held every required slot, when the slot table requires only what payloads store |
| AssistantRuns.CashRequestIsTraced | app/ai/router.py:191-257 | every cash request belongs to exactly one executed action, of the same user, which is traced to its message and its confirmation |
| AssistantRuns.TransferIsConfirmed | app/ai/router.py:286-307 | cut or not, every external transfer was recorded by one timely confirmation, by its owner, of an action that was pending, complete and allowed, and says what that action says |
| AssistantRuns.AtMostOneMoreThanCuts | app/ai/router.py:296-323 | the transfers recorded for an action are one for each confirmation cut short after the core's commit, and one more once it is executed: at most one more than its cut confirmations |
| AssistantRuns.GatewayTransfersSentIffUncut | app/ai/router.py:296-323 | in a run of the gateway every external transfer belongs to an executed action if and only if no confirmation was cut short whose transfer the core had accepted |
| AssistantRuns.EveryTransferSentIffUncut | app/routers/wallet/transfer.py:1645 | the same for every lawful run, by its recorded transfers |
| AssistantRuns.TransferIsTraced | app/ai/router.py:286-329 | in a run without such a cut, every external transfer belongs to exactly one executed action, of the same user, which is traced |
| AssistantRuns.CutRunSendsTwice | app/ai/router.py:296-309 | a run of the gateway, under the slot table its schema is seeded with, in which one action sends the same transfer twice |
| AssistantLaw.TransferSettlesUnlessCut | app/ai/router.py:296-323 | an accepted transfer is recorded, and its action settled if and only if the request is not cut short; a cut one leaves the action open to the same confirmations |
| AssistantRuns.BeneficiaryIsTraced | app/ai/router.py:132-172 | every beneficiary stands as an executed action of its user saved it, and that action is traced |
| AssistantRuns.TablesChangeByConfirmation | app/ai/router.py:132-329 | beneficiaries, cash requests and transfers change at no event of a run but the timely confirmation of a pending action by its owner, by one row that matches its payload, and the action is executed unless it is a transfer cut short |
| AssistantLaw.GatewayObeys | app/ai/orchestrator.py:212-639 | every step keeps the law: a message changes no table, adds at most one action, complete and allowed, and carries its dialogue on; a confirmation settles one pending action of its owner, or is cut short after recording its transfer, or changes nothing |
| AssistantRuns.GatewayIsLawful | app/ai/router.py:85-340 | so does every run of the gateway |
| AssistantRuns.GatewayRunsEndWell | app/ai/router.py:99-329 | after any messages and confirmations, cut ones included, every executed action is traced, no beneficiary is repeated, every beneficiary and cash request has its action, every transfer has one if and only if none was cut short, and the transfers recorded for an action are counted exactly |
| AssistantLaw.ConfirmSettles | app/ai/router.py:106-130 | a confirmation touches at most one action, its owner's and pending, and settles it, or it is cut short, says so and leaves just the transfer; a failure other than these and expiry changes nothing |
| AssistantAnswers.DecisionIsAnswered | app/ai/router.py:106-129 | each of the answers not found, not pending, expired and cancelled is given exactly when the action, its owner, the time and the decision say so, and leaves just the status it names |
| AssistantAnswers.DepositIsAnswered | app/ai/router.py:191-240 | a confirmed deposit is executed exactly for a user with a wallet and a positive amount; its row and the two failures are told from the payload and the wallet |
| AssistantAnswers.WithdrawalIsAnswered | app/ai/router.py:191-240 | a withdrawal also needs a number, a provider and a wallet that covers amount and fee; each failure exactly when its cause is there, without effect |
| AssistantAnswers.BeneficiaryIsAnswered | app/ai/router.py:132-172 | a confirmed beneficiary is always saved, as a new row when the payload names none, else by updating one that it names, what the payload leaves empty unchanged |
| AssistantAnswers.TransferIsAnswered | app/ai/router.py:265-312 | a confirmed transfer is cancelled exactly for a barred user, fails exactly on an unsendable payload or a refusing core, and is otherwise sent as the payload says |
| AssistantRuns.ChangesAtMostOnce | app/ai/router.py:109-118 | over any run an action leaves `pending` at most once |
| AssistantRuns.SettledForever | app/ai/router.py:109-110 | an action that has left `pending` never changes again, and its user, intent, payload and expiry never change at all |
| AssistantRuns.RefusalIsFinal | app/ai/router.py:116-129 | over any run, after an owner's timely refusal of a pending action it is cancelled for good, and no later decision on it records a row |
| AssistantRuns.ExpiryIsFinal | app/ai/router.py:111-114 | the same for any decision after the expiry, which lets the action expire |
| AssistantRuns.NeverJustConfirmed | app/ai/router.py:259-263 | no run reaches the status `confirmed` |
| AssistantRuns.BooksHold | app/ai/router.py:215-240 | in every run, an action has a result exactly when it is executed, results and rows of cash requests are in one-to-one correspondence, no two results name one transfer, and every beneficiary is a row that an action of its user saved |
| AssistantRuns.BeneficiariesAreUnique | app/models/external_beneficiaries.py:10-17 | no run gives a user two rows with the same partner, phone and lower-cased account |
| AssistantRuns.StepKeepsKeys | app/ai/router.py:132-162 | a step, a confirmed `beneficiary.add` included, changes no row's key, adds at most one and never repeats one |
| AssistantLaw.WriteIsSaved | app/ai/router.py:132-162 | a row is inserted when no row has its key, else it takes the place of the row that has it, and it holds what the payload says |
| SlotFilling.MissingSlotExactness | app/ai/resolver.py:1537-1571 | the missing list of a transfer is the required slots empty in the final payload, then `beneficiary_selection` exactly when the match was ambiguous |
| SlotTables.ExactnessCondition | app/ai/resolver.py:1553-1562 | that holds for every message of every run if and only if the table requires no unstored key that a message can say or a conversation can save, nor the selection itself |
| SlotTables.RunSavesOnly | app/ai/parser.py:112-210 | in every run of readable messages a conversation saves only what its payload stores and, for a transfer, how its beneficiary was recognised; never the account of a new beneficiary |
| SlotFilling.CashCommandIsExact | app/ai/resolver.py:855-879 | a cash command holds what the message said, defaults to the wallet's currency, and misses exactly the required texts that are empty, an amount of 0 included |
| SlotFilling.PendingIsComplete | app/ai/orchestrator.py:293-322 | a message creates an action exactly when its command is allowed, misses nothing and is of one of four intents; the action is then pending, expires in ten minutes and fills every required slot that its payload stores, which is all of them under `CompletenessCondition` |
| SlotTables.CompletenessCondition | app/ai/orchestrator.py:533-612 | for each of the four intents: in every run every created action holds every required slot if and only if the slot table requires nothing beyond the payload, or nothing that one message can complete the action with |
| SlotTables.UnsaidBlocksBeneficiaries | app/ai/parser.py:102-125 | a required slot of `beneficiary.add` that no message says and no conversation saves keeps any such action from being created |
| SlotFilling.TurnMovesForward | app/ai/orchestrator.py:223-234 | a same-intent turn keeps every filled slot unless it gives a new value, in the saved conversation or in the action that ends it |
| SlotFilling.CommandCarries | app/ai/resolver.py:1496-1552 | what was understood for a slot is what the payload holds |
| DialogueRuns.FilledStaysFilled | app/ai/orchestrator.py:64-69 | inside any run, while the conversation stays active and on its intent, a filled slot is never emptied, whatever its owner asks besides |
| DialogueRuns.SlotFillingProgress | app/ai/confirmation_service.py:23-48 | the turns that fill a missing required slot for the first time are at most as many as were missing |
| DialogueRuns.MissingNeverGrows | app/ai/orchestrator.py:223-234 | the set of missing required slots, of those the payload stores, never grows |
| AssistantLaw.AsideSpares | app/ai/orchestrator.py:223-234 | a message about something else leaves the conversation as it was, ends it or replaces it |
| AssistantLaw.MessageElsewhere | app/ai/confirmation_service.py:12-20 | messages of other users and in other sessions leave a conversation as it is |
| AssistantAnswers.MessageIsAnswered | app/ai/orchestrator.py:236-639 | each reply is given exactly when policy, intent, missing slots and the owner of the session say so |
| AssistantAnswers.MessageLeaves | app/ai/orchestrator.py:293-322 | a request for confirmation appends one pending action, with the command's payload and ten minutes to live; no other reply does |
| AssistantAnswers.MissingIsSaved | app/ai/confirmation_service.py:23-48 | a transfer or beneficiary with something missing leaves the conversation active, on its intent and with its payload, whether it was absent, completed or about something else |
| AssistantAnswers.NextMessageRemembers | app/ai/orchestrator.py:219-234 | and the owner's next message, on that intent or unclear, carries those slots on |
| AssistantAnswers.ConversationEnds | app/ai/orchestrator.py:241-639 | which replies end the user's conversation and which leave it alone |
| AssistantAnswers.OwnerContinues | app/ai/orchestrator.py:219-234 | what is understood of a message in its user's own session: intent and entities |
| AssistantAnswers.StrangersLeaveConversation | app/ai/confirmation_service.py:12-20 | a message under another user's session id changes no conversation |
| AssistantAnswers.WalletIsOpened | app/ai/resolver.py:55-90 | a message opens an empty wallet in EUR exactly for a user without one whose intent reads the balance, and changes no other |
| AssistantAnswers.IntentIsMostTrusted | app/ai/parser.py:224-247 | the model's intent counts most unless it is unknown and a synonym is at hand, then the synonym's, then the heuristics' |
| AssistantAnswers.SearchIsTold | app/ai/resolver.py:1537-1571 | a transfer's command offers the choices of the search, warns exactly when it found something, and keeps what was said |
| SlotTables.ReadingIsProjected | app/ai/parser.py:224-294 | which of the values read in a message each intent keeps |
| Gateway.ParseUserMessage | app/ai/parser.py:224-294 | the intent, the entities kept for it and the required slots they leave empty |
| Gateway.Store.LoadConversationState | app/ai/confirmation_service.py:12-20 | the conversation of the session, if it is the user's |
| Gateway.Store.SaveConversationState | app/ai/confirmation_service.py:23-48 | inserts or overwrites the conversation, and fails on another user's session id |
| Gateway.Store.ClearConversationState | app/ai/confirmation_service.py:51-57 | completes the user's conversation and nothing else |
| Gateway.Store.CreatePendingAction | app/ai/confirmation_service.py:60-80 | appends one pending action that expires in ten minutes |
| Gateway.Store.LoadPendingAction | app/ai/confirmation_service.py:83-89 | the action of that id, if it is the user's |
| Gateway.Store.LoadWalletCurrency | app/ai/resolver.py:55-90 | the wallet's currency; a missing wallet is created empty, in EUR |
| Gateway.Store.Understand | app/ai/orchestrator.py:219-234 | the message merged with the active conversation of the same intent |
| Gateway.Store.ResolveCommand | app/ai/resolver.py:855-879 | the command of the message, with the wallet created when its intent reads the balance |
| Gateway.Store.ResolveTransferCommand | app/ai/resolver.py:1537-1571 | the command of a transfer after the search for its beneficiary |
| Gateway.Store.AnswerCommand | app/ai/orchestrator.py:241-639 | what each command does to conversations and actions, and the kind of reply |
| Gateway.Store.HandleMessage | app/ai/orchestrator.py:212-639 | the state machine's step for a message |
| Gateway.Store.ExecuteBeneficiary | app/ai/router.py:132-172 | inserts or updates the one row the payload names and executes the action |
| Gateway.Store.ExecuteCash | app/ai/router.py:191-240 | the checks, the fee and the row of a cash request, or a failure without effect |
| Gateway.Store.ExecuteTransfer | app/ai/router.py:265-312 | cancels when the policy refuses, fails on an invalid or rejected request, else records the transfer and, unless cut short there, executes the action |
| Gateway.Store.Confirm | app/ai/router.py:99-329 | the state machine's step for a confirmation |
| Gateway.Store.Cancel | app/ai/router.py:332-340 | a cancellation is a confirmation with `confirm` false |
| Slots.MergeEntities | app/ai/orchestrator.py:64-69 | incoming values win when they are not empty, key by key |
| Slots.RequiredMissingFields | app/ai/parser.py:213-221 | the required slots that are empty, in slot order |
| Slots.MissingIsExact | app/ai/parser.py:213-221 | a name is in that list if and only if it is required and empty |
| Synonyms.BestSynonymMatch | app/ai/parser.py:68-81 | the first of the longest synonyms that occur, none exactly when none occurs |
| Beneficiaries.KeepFirst | app/ai/resolver.py:609-657 | the loop with its `seen` set keeps the rows no earlier row shares a key with |
| Beneficiaries.LoadCandidates | app/ai/resolver.py:588-657 | the candidates are the kept rows, trimmed |
| Beneficiaries.CandidatesAreFirstWins | app/ai/resolver.py:609-657 | kept rows are in order, no key comes twice, and every key is represented by its first row |
| Beneficiaries.MatchByName | app/ai/resolver.py:708-726 | the scan ends on the first row of maximal score and lists the rows at or above 0.72 |
| Beneficiaries.DecideByNameIsExact | app/ai/resolver.py:728-742 | chosen, ambiguous or left alone, exactly as some score reaches 0.72 and a rival is within 0.08 of the best in rounded score |
| Beneficiaries.SelectionMargin | app/ai/resolver.py:705-742 | a chosen candidate is the first of maximal score, scores at least 0.72 and leads every other such candidate by 0.08 rounded, so by 0.079 before rounding |
| Beneficiaries.PhoneChooses | app/ai/resolver.py:680-686 | the only candidate with the phone number, and partner if given, is chosen |
| Beneficiaries.PhoneIsAmbiguous | app/ai/resolver.py:687-703 | several candidates with the number make the user choose |
| Beneficiaries.UnknownPhoneFallsBack | app/ai/resolver.py:705-726 | a number nobody has leaves the decision to the name |
| Beneficiaries.OnlyEmptyFieldsChange | app/ai/resolver.py:744-757 | resolution never changes a filled field, and fills one only from the chosen candidate |
| NameMatches.NamedPartnerIsChosen | app/ai/resolver.py:705-742 | the candidate of the very name at the partner asked for is chosen, whoever has that name elsewhere, when the partner has no other of a like name |
| NameMatches.NamesakesAreOffered | app/ai/resolver.py:728-742 | a second candidate there of the same or a related name makes the user choose, so that condition is needed |
| NameMatches.ExactNameIsChosen | app/ai/resolver.py:576-585 | without a partner the very name is chosen when every other name is unlike it: unrelated, and similar to 0.9 at most |
| NameMatches.LikeNameIsChosen | app/ai/resolver.py:576-585 | a name only contained, or similar to 0.72 at least, is chosen when all others are a tenth less like it |
| NameMatches.StrangerIsNotFound | app/ai/resolver.py:728-729 | a name that resembles no candidate leaves the payload as it is |
| NameMatches.NumberIsChosen | app/ai/resolver.py:680-686 | the only candidate with the number, at the partner if one is asked for, is chosen whatever the names |
| NameMatches.NumbersAreOffered | app/ai/resolver.py:687-703 | two or three candidates with the number are offered with all their fields and the score 1 |
| NameMatches.NamesAreOffered | app/ai/resolver.py:731-742 | two or three candidates are offered, best first, each at 0.72 or more, the first of the greatest score |
| NameMatches.TiesFollowPartners | app/ai/resolver.py:731-736 | those of one score in descending order of their partner |
| NameMatches.ChoiceFills | app/ai/resolver.py:744-757 | each empty field is filled with the same field of the chosen candidate, whose source and name are noted |
| NameMatches.CandidatesShowFirstRows | app/ai/resolver.py:588-657 | the candidates are, trimmed, exactly the rows that no earlier row shares name, partner, number and account with |
| Text.NormalizeJoinsWords | app/ai/resolver.py:568-569 | normalising joins the lower-cased words of a text with single blanks |
| Beneficiaries.ResolveTransferBeneficiary | app/ai/resolver.py:660-761 | the payload, the choices offered, the warning and the extra missing slot of each outcome |
| FirstMaximum.FirstMaxIsFirstMaximum | app/ai/resolver.py:713-715 | a scan with a strict comparison from 0 ends on the first row of the greatest positive score, on none when no score is positive |
| StepUp.CopyConservation | app/dependencies/step_up.py:58-108 | in every interleaving, acceptances of a `jti` plus copies held never exceed copies stored |
| StepUp.AtMostOnceWithoutRedis | app/dependencies/step_up.py:69-76 | without Redis a token created once is accepted at most once, ever |
| StepUp.OnceOnlyIffNoRedis | app/dependencies/step_up.py:290-301 | that holds for every run if and only if Redis is not in use |
| StepUp.IssuedTokenPresentations | app/routers/auth/auth.py:283-285 | an issued token presented three times at once is accepted twice with Redis, once without, and then refused |
| StepUp.IssuedTokenIsUsedUp | app/dependencies/step_up.py:69-108 | over any run that does not store it anew an issued token is accepted at most twice with Redis and at most once without |
| StepUp.SecondPresentation | app/dependencies/step_up.py:290-292 | a second presentation is accepted exactly when the first used up a Redis copy and the local copy is live and matches |
| StepUp.IssuedTokenIsBound | app/dependencies/step_up.py:212-228 | a token issued to a session is accepted in that session only, over any run that does not reissue it |
| StepUp.IssuedTokenVerdict | app/dependencies/step_up.py:152-345 | the verdict on an issued token's first presentation, told from the time, the configured minutes, administrator, action and session |
| StepUp.RecordVerdict | app/dependencies/step_up.py:290-345 | which mismatch of the record is reported, in which order |
| StepUp.OthersLeaveHeld | app/dependencies/step_up.py:58-108 | no run of events about other tokens changes the live record held of a token |
| StepUp.CreationForgetsExpired | app/dependencies/step_up.py:58-76 | after a creation no expired record is held locally, and no live one is lost |
| StepUp.CopyOutlives | app/dependencies/step_up.py:79-87 | a registered copy can be read until its token expires, and for a second at least |
| StepUp.TokenStores.PurgeExpired | app/dependencies/step_up.py:58-66 | drops exactly the expired local records |
| StepUp.TokenStores.ConsumeLocal | app/dependencies/step_up.py:74-76 | pops the live local record |
| StepUp.TokenStores.PersistRedis | app/dependencies/step_up.py:79-87 | stores a copy for at least one second, when Redis is in use |
| StepUp.TokenStores.ConsumeRedis | app/dependencies/step_up.py:90-108 | reads and deletes the Redis copy |
| StepUp.TokenStores.CreateToken | app/dependencies/step_up.py:152-175 | a fresh token with its local record |
| StepUp.TokenStores.RegisterToken | app/dependencies/step_up.py:178-201 | its Redis record, unbound |
| StepUp.TokenStores.BindToken | app/dependencies/step_up.py:212-228 | binds the local record, even an expired one, and stores it again in both places |
| StepUp.TokenStores.ValidateToken | app/dependencies/step_up.py:235-345 | the verdict and the copy it consumes |
| RateLimit.Limiter.Dispatch | app/middlewares/rate_limit.py:28-75 | one increment, the expiry on the first hit unless the request is cut short before it, and the comparison with the limit |
| RateLimit.WindowIsExact | app/middlewares/rate_limit.py:62-75 | a request that is not cut passes exactly when it is among the first `limit` of its client in its minute: the expiry never resets a live minute |
| RateLimit.MinuteQuota | app/middlewares/rate_limit.py:65-73 | a minute lets through the smaller of the limit and the arrivals, less those of them that were cut |
| RateLimit.GroupQuota | app/middlewares/rate_limit.py:57-75 | that limit is the one of the client's group, else the default one, else 60 |
| RateLimit.CounterIsKept | app/middlewares/rate_limit.py:62-69 | a counter is kept for seventy seconds, for good if its first request was cut |
| RateLimit.IntervalQuota | app/middlewares/rate_limit.py:62-69 | an interval of L seconds lets at most (floor(L/60)+2)*limit through |
| RateLimit.OldKeysWereCut | app/middlewares/rate_limit.py:65-67 | the live keys of a client are of this minute and the two before, and exactly those older ones whose first request was cut between increment and expiry |
| RateLimit.AtMostThreeKeys | app/middlewares/rate_limit.py:66-67 | at most three keys of a client are live, those apart whose first request was cut |
| LedgerHealth.Worker.Round | app/main.py:331-364 | the alert of one check and what the worker remembers |
| LedgerHealth.AlertHistory | app/main.py:336-364 | every RECOVERED directly follows an UNBALANCED; the last alert says UNBALANCED exactly when the last count read is positive; RECOVERED comes with a count of 0 and UNBALANCED with another |
| LedgerHealth.AlertIsRecent | app/main.py:350-362 | after a check with unbalanced journals the last alert is younger than the reminder delay |
| LedgerHealth.QuietDrift | app/main.py:347-349 | over k checks without an alert, failed ones included, the count drifts by at most k*(delta-1) and neither reaches nor leaves 0 |
| LedgerHealth.AlertIff | app/main.py:336-364 | on the history alone: a check alerts if and only if the count became or stopped being positive, or is positive and moved by delta, or is positive and the last alert is as old as the reminder delay; and what the alert says |
| LedgerHealth.RemindersAreSpaced | app/main.py:350-352 | alerts about an unchanged positive count are at least the reminder delay apart |
| LedgerHealth.AlertTellsReason | app/main.py:336-352 | the reason of an alert, told from the last count read |
| LedgerHealth.SettingsInSeconds | app/main.py:326-328 | the reminder delay is five intervals, five minutes at least |
| Redaction.RedactionShowsVisiblePart | app/main.py:738-747 | two values are redacted alike if and only if they agree outside sensitive keys and on the visible part of texts |
| Redaction.RedactKeepsShape | app/main.py:738-747 | a redacted value has the members, items and values of the original outside sensitive keys, and the visible part of its texts |
| Redaction.RedactIsIdempotent | app/main.py:729-747 | redacting twice is redacting once, truncation included |
| Redaction.RedactFixesClean | app/main.py:738-747 | exactly the values with marks under sensitive keys and short or cut texts are left alone |
| Redaction.RedactedIsClean | app/main.py:715-747 | a redacted value shows nothing under a sensitive key, at any depth |
| Redaction.CaseIsIgnored | app/main.py:738-739 | keys that differ in letter case only are redacted alike, at any depth |
| Redaction.SecretsAreMarked | app/main.py:715-747 | the ten sensitive keys, and what is shown of a plain value under any other |
| Ledger.LedgerService.NormalizePostings | app/services/paylink_ledger_service.py:11-35 | rejects a negative amount, drops zero amounts, keeps the rest in order |
| Ledger.LedgerService.SumByCurrency | app/services/paylink_ledger_service.py:39-46 | the debit and credit sums of each currency |
| Ledger.LedgerService.IsBalanced | app/services/paylink_ledger_service.py:48-52 | true exactly when every currency balances |
| Ledger.LedgerService.PrepareEntries | app/services/paylink_ledger_service.py:104-131 | the entries with account and currency, or a failure on an unknown account |
| Ledger.LedgerService.PostJournal | app/services/paylink_ledger_service.py:79-175 | the journals after a post, unchanged when it is rejected |
| Ledger.BalancedByCurrencyIsBalanced | app/main.py:265-282 | postings balanced per currency are balanced as the health check sums them |
| Ledger.PostKeepsBalance | app/services/paylink_ledger_service.py:133-134 | posting keeps the unbalanced-journal count at 0 |
| Ledger.PostIsIdempotent | app/services/paylink_ledger_service.py:90-102 | posting a transaction id again changes nothing |
| Ledger.PostRecords | app/services/paylink_ledger_service.py:104-175 | a post of positive amounts under a new id appends one journal with one entry a posting, of its account, side, amount and currency |
| Ledger.PostIsTurnedAway | app/services/paylink_ledger_service.py:11-131 | when a post fails on a negative amount, on nothing to post or on an unknown account |
| Ledger.PairIsPostedIff | app/services/paylink_ledger_service.py:48-52 | a pair of postings goes through exactly when amount and currency agree and the sides differ |
| Payouts.Desk.Confirm | app/api/agent.py:54-135 | the assignment, the journal and the order after a confirmation, whole or cut short after the journal |
| Payouts.Desk.Transfer | app/routers/bif_token.py:14-45 | the journal of a BIF transfer |
| Payouts.PayoutConservation | app/api/ops_liquidity.py:34-44 | over any run, ASSIGNED amounts plus credits to `PAYOUTS_BIF_OUT` stay constant |
| Payouts.WalletsKeepTheirSum | app/routers/bif_token.py:21-45 | no run of transfers and payouts changes the sum over all wallet accounts |
| Payouts.PaidAtMostOnce | app/api/agent.py:70-86 | an assignment is paid at most once |
| Payouts.OtherAgentsAreTurnedAway | app/api/agent.py:54-69 | a confirmation by another agent, or of no assignment, changes nothing and is answered not found |
| Payouts.PaidByOwnAgent | app/api/agent.py:54-69 | in every run each payment was confirmed by the assignment's own agent |
| Payouts.AssignedIsPaid | app/api/agent.py:70-131 | the agent's own assigned payout is paid if and only if its amount is positive and both accounts are known; the journal, assignment and order it leaves |
| Payouts.OnlyAssignedArePaid | app/api/agent.py:70-74 | an assignment that is no longer assigned is left alone |
| Payouts.ConfirmedOrdersArePaid | app/api/agent.py:119-131 | in a run without a cut request every confirmed assignment's order is PAID_OUT |
| Payouts.OrderIsPaidUnlessCut | app/services/paylink_ledger_service.py:171-172 | a payment marks its order if and only if it is not cut short after the commit, and no retry will |
| Payouts.OrderIsPaidIffSettled | app/api/agent.py:119-131 | after any run an order is PAID_OUT if and only if it was at first or some request paid it without being cut |
| Payouts.OrdersPaidIff | app/api/agent.py:119-131 | after any run every confirmed assignment's order is PAID_OUT if and only if no cut payment left its order unpaid |
| Payouts.BooksStayBalanced | app/api/agent.py:92-117 | no run of transfers and payouts unbalances a journal |
| Payouts.TransferMovesMoney | app/routers/bif_token.py:21-43 | when a transfer goes through, whose balances, in the chosen sign, it moves by how much, and that the sum over wallets stays, self-transfers included |
| Fees.FeeIsASixteenth | app/ai/router.py:204-205 | the fee is within half a micro-unit of a sixteenth, and 0 on positive amounts of at most 8 micro-units only |
| Fees.TotalDeterminesAmount | app/ai/router.py:204-205 | amount plus fee is strictly increasing, so it determines the amount |
| Fees.SplittingCostsAtMostOneUnit | app/ai/router.py:204 | splitting a withdrawal changes the fee by at most one micro-unit |
| Fees.PassesWhenNothingIsShort | app/credit_chat/service.py:151-155 | the simulation passes exactly when the shortfall is 0 |
| Fees.SmallerPassesIffNoDiscount | app/credit_chat/service.py:149-154 | smaller amounts pass whenever larger ones do exactly when the rate is not negative |
| Fees.SimulationByCurrency | app/credit_chat/service.py:147-155 | a simulation in BIF counts 6.25 percent and the credit line alone, any other the configured charge and the wallet too; the fee is exact to half a cent |
| Rounding.RoundIsNearest | app/ai/router.py:204 | half-even rounding gives a nearest integer, the even one on a tie |
| Rounding.RoundIsUnique | app/ai/router.py:204 | and is the only function that does |
| AgentChat.Draft.BestMemory | app/agent_chat/service.py:255-269 | the scan over past phrasings |
| AgentChat.Draft.LearnMemories | app/agent_chat/service.py:245-289 | fills empty fields from the best phrasing at or above 0.72 |
| AgentChat.Draft.ResolveHistory | app/agent_chat/service.py:161-192 | recognises the best history row at or above 0.6 and fills empty fields from it |
| AgentChat.Draft.BestNamed | app/agent_chat/service.py:221-230 | the second scan, over rows with a name |
| AgentChat.Draft.LearnHistory | app/agent_chat/service.py:203-242 | fills an empty partner or country from that row |
| AgentChat.Draft.Complete | app/agent_chat/service.py:414-418 | the four stages in order |
| AgentChat.CompletionOnlyAdds | app/agent_chat/service.py:414-418 | no stage overwrites a field the parser filled |
| AgentChat.KnownPhrasingIsLearned | app/agent_chat/service.py:245-289 | the only past phrasing that the message or recipient is like fills each open field with its own, trimmed |
| AgentChat.UnlikePhrasingsTeachNothing | app/agent_chat/service.py:270-272 | without one nothing is learned |
| AgentChat.KnownRecipientIsRecognised | app/agent_chat/service.py:161-192 | the only past transfer to a like recipient recognises the draft and fills each open field with its own |
| AgentChat.UnlikeRecipientIsNot | app/agent_chat/service.py:161-192 | without one the draft stays as it is |
| AgentChat.AlikeScores | app/agent_chat/service.py:142-158 | a score reaches a limit up to 0.96 exactly when one text contains the other or one of the two similarities reaches it |
| AgentChat.SecondPassChangesIff | app/agent_chat/service.py:203-242 | the second pass changes a resolved draft exactly when the first picked a nameless row and the best named row has what it lacked |
| AgentChat.SecondPassIsRedundant | app/agent_chat/service.py:220-240 | it changes nothing when every history row has a name |
| AgentChat.NamelessRowWins | app/agent_chat/service.py:154-158 | an input on which it does change something, with rows a transfer can leave: a blank name and partner pass its length checks |
| Registries.ConnectionManager.Connect | app/core/ws_manager.py:13-15 | adds one pair to the relation and keeps rooms non-empty |
| Registries.ConnectionManager.Disconnect | app/core/ws_manager.py:17-23 | removes one pair and the room with its last socket |
| Registries.ConnectionManager.Broadcast | app/core/ws_manager.py:25-36 | removes exactly the sockets of the room whose send failed |
| Registries.RoomManager.Connect | app/realtime/manager.py:13-18 | adds the socket and one pair a room |
| Registries.RoomManager.Disconnect | app/realtime/manager.py:20-25 | removes every pair of the socket and leaves no empty room |
| Registries.RunRefinesRelation | app/core/ws_manager.py:13-36 | after any connections, disconnections and broadcasts no order is left without sockets, and the table is the plain relation the events describe |
| Registries.PresenceRefinesRelation | app/realtime/manager.py:13-25 | the same for rooms, and whoever is in a room is connected |
| Registries.RelationDeterminesTable | app/core/ws_manager.py:17-23 | without empty rooms the relation determines the table |
| Registries.UserRegistry.Notify | app/websocket_manager.py:103-115 | leaves exactly the multiset of connections whose send did not fail |
| StepUp.AcceptedIff | app/dependencies/step_up.py:235-345 | helper, the cases of one presentation: acceptance characterised by claims and record; rejections on claims change neither store; other tokens are untouched |

## Left out

- HTTP, sessions of the database, table definitions, migrations, audit rows, timestamps that only record
  when something was saved, and the text of replies.
- Escrow and P2P state machines, the transfer core, e-mail, chat and PDF services.
- The regular expressions of the parsers and the language model: a message is what they made of it.
- Slot rows whose payload key holds a list, and the candidate list inside a saved conversation, which
  no later turn reads.
- Decimal precision limits, the six-digit columns of cash requests, and floating-point scores.
- Text outside ASCII.
- Concurrent requests on one pending action, and crashes inside a request at other points than those named
  under Conventions.
- The rounding of posted amounts to six digits: the table refuses an amount that rounds to 0.
- The currency default and the missing list of the credit assistant, the hints of the agent chat, and its
  short-phone suggestions: one branch each.
- The room functions and the administrators' registry of `app/websocket_manager.py`, which repeat the
  modelled ones and keep empty rooms.
- SlotFillingProgress: bounds the useful turns of a dialogue; a user who never supplies a slot can keep a
  conversation open for ever, as in the code.
