/** What the gateway answers, told from the request and the tables: when each action is executed and
    with which row, why a confirmation fails, and what a message does to its conversation. */
module AssistantAnswers {
  import opened Assistant
  import opened AssistantLaw
  import B = Beneficiaries
  import opened Fees
  import opened Options
  import opened SlotFilling
  import opened Slots
  import opened Text

  // ---------- The policy ----------

  /** Frozen, closed and suspended users may do nothing; a transfer also needs an open account for
      transfers and an identity that is verified or under review. */
  ghost predicate Barred(user: User, intent: Intent) {
    || user.status in {Frozen, Closed, Suspended}
    || (intent == TransferCreate && (user.transfersBlocked || user.kyc == OtherKyc))
  }

  // ---------- Confirmations ----------

  /** `d` decides on a pending action of its user. */
  ghost predicate Decides(s: State, d: Decision) {
    d.action < |s.actions| && s.actions[d.action].user == d.user.id && s.actions[d.action].status == Pending
  }

  ghost predicate Confirms(s: State, d: Decision) {
    Decides(s, d) && d.confirm && d.now <= s.actions[d.action].expiresAt
  }

  /** Only the status of the action and the time of its confirmation differ. */
  ghost predicate ClosedAs(s: State, t: State, id: nat, status: Status) {
    && id < |s.actions| && |t.actions| == |s.actions|
    && t.actions[id].status == status && SameRequest(s.actions[id], t.actions[id])
    && t.actions[id].result == s.actions[id].result
    && t == s.(actions := s.actions[id := t.actions[id]])
  }

  /** Answers that depend on the action alone. */
  lemma DecisionIsAnswered(env: Env, s: State, d: Decision)
    ensures var (t, reply) := Confirm(env, s, d);
      && (reply == Failed(NotFound) <==> d.action >= |s.actions| || s.actions[d.action].user != d.user.id)
      && (reply == Failed(NotPending) <==>
            d.action < |s.actions| && s.actions[d.action].user == d.user.id && s.actions[d.action].status != Pending)
      && (reply == Failed(HasExpired) <==> Decides(s, d) && s.actions[d.action].expiresAt < d.now)
      && (reply == ActionCancelled <==> Decides(s, d) && d.now <= s.actions[d.action].expiresAt && !d.confirm)
      && (reply in {Failed(NotFound), Failed(NotPending)} ==> t == s)
      && (reply == Failed(HasExpired) ==> ClosedAs(s, t, d.action, Expired))
      && (reply == ActionCancelled ==>
            ClosedAs(s, t, d.action, Cancelled) && t.actions[d.action].confirmedAt == Some(d.now))
  {
  }

  /** The action is executed at the time of the decision and keeps its request. */
  ghost predicate Done(s: State, t: State, d: Decision, result: Result) {
    && d.action < |s.actions| && |t.actions| == |s.actions|
    && SameRequest(s.actions[d.action], t.actions[d.action])
    && t.actions[d.action].status == Executed && t.actions[d.action].result == result
    && t.actions[d.action].confirmedAt == Some(d.now) && t.actions[d.action].executedAt == Some(d.now)
    && t.actions == s.actions[d.action := t.actions[d.action]]
  }

  /** The amount of the payload, when it is a positive decimal. */
  ghost predicate Asks(env: Env, payload: Fields, amount: real) {
    Get(payload, Amount) != "" && env.decimalOf(Get(payload, Amount)) == Some(amount) && amount > 0.0
  }

  ghost predicate AsksNothing(env: Env, payload: Fields) {
    forall amount :: !Asks(env, payload, amount)
  }

  /** A deposit is executed exactly for a user with a wallet and a positive amount, without a fee. */
  lemma DepositIsAnswered(env: Env, s: State, d: Decision, amount: real)
    requires Confirms(s, d) && s.actions[d.action].intent == CashDeposit
    ensures var a := s.actions[d.action];
      var (t, reply) := Confirm(env, s, d);
      && (reply == Failed(NoWallet) <==> d.user.id !in s.wallets)
      && (reply == Failed(BadAmount) <==> d.user.id in s.wallets && AsksNothing(env, a.payload))
      && (reply.Failed? ==> t == s)
      && (d.user.id in s.wallets && Asks(env, a.payload, amount) ==>
            && reply == ActionExecuted && Done(s, t, d, Requested(|s.cashRequests|))
            && t.beneficiaries == s.beneficiaries && t.transfers == s.transfers
            && t.cashRequests == s.cashRequests + [CashRequest(d.user.id, Deposit, amount, 0.0, amount,
                 CashCurrency(s, d.user.id, a.payload), "", "", Get(a.payload, Note))])
  {
    NoAmount(env, s.actions[d.action].payload);
  }

  lemma NoAmount(env: Env, payload: Fields)
    ensures AsksNothing(env, payload) <==> AmountOf(env, payload).None? || AmountOf(env, payload).value <= 0.0
  {
    if AmountOf(env, payload).Some? && AmountOf(env, payload).value > 0.0 {
      assert Asks(env, payload, AmountOf(env, payload).value);
    }
  }

  /** The currency asked for, else that of the wallet, else euros. */
  function CashCurrency(s: State, user: UserId, payload: Fields): string
    requires user in s.wallets
  {
    if Get(payload, Currency) != "" then Get(payload, Currency)
    else if s.wallets[user].currency != "" then s.wallets[user].currency
    else "EUR"
  }

  /** A withdrawal also needs a number and a provider, and a wallet that covers the amount and the fee. */
  lemma WithdrawalIsAnswered(env: Env, s: State, d: Decision, amount: real)
    requires Confirms(s, d) && s.actions[d.action].intent == CashWithdraw
    ensures var a := s.actions[d.action];
      var mobile, provider := Strip(Get(a.payload, MobileNumber)), Strip(Get(a.payload, ProviderName));
      var fee := WithdrawalFee(amount);
      var (t, reply) := Confirm(env, s, d);
      && (reply == Failed(NoWallet) <==> d.user.id !in s.wallets)
      && (reply == Failed(BadAmount) <==> d.user.id in s.wallets && AsksNothing(env, a.payload))
      && (reply.Failed? ==> t == s)
      && (d.user.id in s.wallets && Asks(env, a.payload, amount) ==>
            && (reply == Failed(IncompleteWithdrawal) <==> mobile == "" || provider == "")
            && (reply == Failed(InsufficientFunds) <==>
                  mobile != "" && provider != "" && s.wallets[d.user.id].available < amount + fee)
            && (mobile != "" && provider != "" && amount + fee <= s.wallets[d.user.id].available ==>
                  && reply == ActionExecuted && Done(s, t, d, Requested(|s.cashRequests|))
                  && t.beneficiaries == s.beneficiaries && t.transfers == s.transfers
                  && t.cashRequests == s.cashRequests + [CashRequest(d.user.id, Withdraw, amount, fee, amount + fee,
                       CashCurrency(s, d.user.id, a.payload), mobile, provider, Get(a.payload, Note))]))
  {
    NoAmount(env, s.actions[d.action].payload);
  }

  /** The normalised account of a payload. */
  function AccountOf(payload: Fields): string {
    Lower(Strip(if Get(payload, AccountRef) != "" then Get(payload, AccountRef) else Get(payload, RecipientEmail)))
  }

  /** `row` is the user's, at the partner, with the number and the account of the payload. */
  ghost predicate IsNamed(row: Beneficiary, user: UserId, payload: Fields) {
    && row.user == user && row.partner == Get(payload, PartnerName) && row.phone == Get(payload, RecipientPhone)
    && Lower(row.email) == AccountOf(payload)
  }

  /** What saving makes of the row it finds: what the payload leaves empty stays. */
  function Updated(row: Beneficiary, payload: Fields): Beneficiary {
    Beneficiary(row.user,
      if Get(payload, RecipientName) != "" then Get(payload, RecipientName) else row.name,
      row.phone,
      if AccountOf(payload) != "" then AccountOf(payload) else row.email,
      row.partner,
      if Get(payload, CountryDestination) != "" then Get(payload, CountryDestination) else row.country,
      true)
  }

  /** A beneficiary is always saved: as a new row when none is named by the payload, else in the place
      of a row that is. */
  lemma BeneficiaryIsAnswered(env: Env, s: State, d: Decision)
    requires Confirms(s, d) && s.actions[d.action].intent == BeneficiaryAdd
    ensures var (t, reply) := Confirm(env, s, d);
      var payload, rows := s.actions[d.action].payload, s.beneficiaries;
      && reply == ActionExecuted && t.actions[d.action].result.SavedAs?
      && Done(s, t, d, t.actions[d.action].result)
      && t.cashRequests == s.cashRequests && t.transfers == s.transfers
      && ((forall i :: 0 <= i < |rows| ==> !IsNamed(rows[i], d.user.id, payload)) ==>
            t.beneficiaries == rows + [Beneficiary(d.user.id, Get(payload, RecipientName), Get(payload, RecipientPhone),
              AccountOf(payload), Get(payload, PartnerName), Get(payload, CountryDestination), true)])
      && ((exists i :: 0 <= i < |rows| && IsNamed(rows[i], d.user.id, payload)) ==>
            exists i :: 0 <= i < |rows| && IsNamed(rows[i], d.user.id, payload)
              && t.beneficiaries == rows[i := Updated(rows[i], payload)])
  {
    var payload, rows := s.actions[d.action].payload, s.beneficiaries;
    assert forall i :: 0 <= i < |rows| ==>
      (IsNamed(rows[i], d.user.id, payload) <==> SameBeneficiary(rows[i], d.user.id, payload));
    if FindBeneficiary(rows, d.user.id, payload).Some? {
      var i := FindBeneficiary(rows, d.user.id, payload).value;
      assert UpdatedBeneficiary(rows[i], payload) == Updated(rows[i], payload);
    }
  }

  /** The request model of an external transfer accepts the payload. */
  ghost predicate Sendable(env: Env, payload: Fields) {
    var account := if Get(payload, AccountRef) != "" then Get(payload, AccountRef) else Get(payload, RecipientEmail);
    && 2 <= |Get(payload, PartnerName)| <= 80 && 2 <= |Get(payload, RecipientName)| <= 120
    && Strip(Get(payload, CountryDestination)) != ""
    && (account == "" || env.validEmail(account))
    && exists amount :: Asks(env, payload, amount) && amount <= 100_000_000.0
  }

  lemma SendableIsValid(env: Env, user: UserId, payload: Fields)
    ensures Sendable(env, payload) <==>
      AmountOf(env, payload).Some? && ValidTransfer(env, TransferOf(user, payload, AmountOf(env, payload).value))
  {
    if AmountOf(env, payload).Some? && AmountOf(env, payload).value > 0.0 {
      assert Asks(env, payload, AmountOf(env, payload).value);
    }
  }

  /** A transfer is cancelled for a barred user, fails on an invalid payload or when the core raises, and
      is otherwise sent as the payload says. */
  lemma TransferIsAnswered(env: Env, s: State, d: Decision, amount: real)
    requires Confirms(s, d) && s.actions[d.action].intent == TransferCreate
    ensures var a := s.actions[d.action];
      var (t, reply) := Confirm(env, s, d);
      && (reply == Refused <==> Barred(d.user, TransferCreate))
      && (reply == Refused ==> ClosedAs(s, t, d.action, Cancelled))
      && (!Barred(d.user, TransferCreate) ==>
            && (reply == Failed(InvalidTransfer) <==> !Sendable(env, a.payload))
            && (reply == Failed(TransferRaised) <==> Sendable(env, a.payload) && !d.accepted)
            && (reply in {Failed(InvalidTransfer), Failed(TransferRaised)} ==> t == s)
            && (Sendable(env, a.payload) && d.accepted && Asks(env, a.payload, amount) ==>
                  && reply == (if d.cut then Failed(CutShort) else ActionExecuted)
                  && t.transfers == s.transfers + [SentBy(d.user.id, a.payload, amount)]
                  && t.beneficiaries == s.beneficiaries && t.cashRequests == s.cashRequests
                  && (if d.cut then t.actions == s.actions else Done(s, t, d, Sent(|s.transfers|)))))
  {
    SendableIsValid(env, d.user.id, s.actions[d.action].payload);
  }

  function SentBy(user: UserId, payload: Fields, amount: real): Transfer {
    Transfer(user, Get(payload, PartnerName), Strip(Get(payload, CountryDestination)), Get(payload, RecipientName),
      Get(payload, RecipientPhone),
      if Get(payload, AccountRef) != "" then Get(payload, AccountRef) else Get(payload, RecipientEmail),
      amount, Get(payload, SenderName), Get(payload, OriginCurrency))
  }

  // ---------- What a message means ----------

  /** The model's intent counts most, unless it is `unknown` and a synonym is at hand; then the
      synonym's, then the heuristics'. */
  lemma IntentIsMostTrusted(reading: Reading)
    ensures reading.resolved.Some? && reading.resolved.value != UnknownIntent ==>
      IntentOf(reading) == reading.resolved.value
    ensures reading.synonym.Some? && (reading.resolved.None? || reading.resolved.value == UnknownIntent) ==>
      IntentOf(reading) == reading.synonym.value
    ensures reading.synonym.None? && reading.resolved.None? ==> IntentOf(reading) == reading.heuristic
    ensures reading.synonym.None? && reading.resolved.Some? ==> IntentOf(reading) == reading.resolved.value
  {
  }

  /** A conversation of another user is as good as none. */
  lemma StrangersHaveNoConversation(s: State, m: Message)
    requires Taken(s, m)
    ensures Understood(s, m) == ParseMessage(m.reading, m.metadata)
  {
  }

  /** And stays as it is. */
  lemma StrangersLeaveConversation(env: Env, s: State, m: Message)
    requires Taken(s, m)
    ensures HandleMessage(env, s, m).0.conversations == s.conversations
  {
    CommandIntent(env, s, m);
    StrangersDispatch(Prepared(s, m), m, CommandOf(env, s, m));
  }

  lemma StrangersDispatch(s: State, m: Message, command: Command)
    requires Taken(s, m)
    ensures Dispatch(s, m, command).0.conversations == s.conversations
  {
  }

  /** The session id of the message belongs to someone else. */
  ghost predicate Taken(s: State, m: Message) {
    m.session.Some? && m.session.value in s.conversations && s.conversations[m.session.value].user != m.user.id
  }

  /** What is understood of a message in the user's own session: an unclear one continues an active
      conversation, and one about its intent adds to what it holds. */
  lemma OwnerContinues(s: State, m: Message, id: SessionId)
    requires m.session == Some(id) && id in s.conversations && s.conversations[id].user == m.user.id
    ensures var c, parsed := s.conversations[id], Understood(s, m);
      && (!c.active ==> parsed == ParseMessage(m.reading, m.metadata))
      && (c.active && IntentOf(m.reading) == UnknownIntent ==> parsed.intent == c.intent)
      && (IntentOf(m.reading) != UnknownIntent ==> parsed.intent == IntentOf(m.reading))
      && (c.active && parsed.intent == c.intent && c.intent in {TransferCreate, BeneficiaryAdd} ==>
            forall n :: Get(parsed.entities, n) ==
              if Get(Spoken(m), n) != "" then Get(Spoken(m), n) else Get(c.slots, n))
  {
  }

  // ---------- What a message is answered ----------

  const CREATING: set<Intent> := {TransferCreate, BeneficiaryAdd, CashDeposit, CashWithdraw}

  /** The gateway finds `command` unclear or its user barred from it. */
  ghost predicate Declined(m: Message, command: Command) {
    Barred(m.user, command.intent) || command.intent == UnknownIntent
  }

  /** It has to save the conversation under an id that is someone else's. */
  ghost predicate CannotSave(s: State, m: Message, command: Command) {
    command.intent in {TransferCreate, BeneficiaryAdd} && command.missing != [] && Taken(s, m)
  }

  lemma DispatchIsAnswered(s: State, m: Message, command: Command)
    requires !command.intent.OtherIntent?
    ensures var reply := Dispatch(s, m, command).1;
      var unknown := command.intent == UnknownIntent;
      && (reply == Refused <==> unknown)
      && (reply == Failed(SessionTaken) <==> !unknown && CannotSave(s, m, command))
      && (reply == MissingInformation(command.missing) <==>
            !unknown && command.missing != [] && !CannotSave(s, m, command))
      && (reply == ConfirmationRequired(|s.actions|) <==>
            !unknown && command.missing == [] && command.intent in CREATING)
      && (reply == Answer <==> !unknown && command.missing == [] && command.intent !in CREATING)
  {
  }

  /** Which reply a message gets. */
  lemma MessageIsAnswered(env: Env, s: State, m: Message)
    ensures var reply, command := HandleMessage(env, s, m).1, CommandOf(env, s, m);
      var declined := Declined(m, command);
      && (reply == Refused <==> declined)
      && (reply == Failed(SessionTaken) <==> !declined && CannotSave(s, m, command))
      && (reply == MissingInformation(command.missing) <==>
            !declined && command.missing != [] && !CannotSave(s, m, command))
      && (reply == ConfirmationRequired(|s.actions|) <==>
            !declined && command.missing == [] && command.intent in CREATING)
      && (reply == Answer <==> !declined && command.missing == [] && command.intent !in CREATING)
  {
    CommandIntent(env, s, m);
    DispatchIsAnswered(Prepared(s, m), m, CommandOf(env, s, m));
  }

  /** A command is about what was understood; an intent outside the catalogue is unknown. */
  lemma CommandIntent(env: Env, s: State, m: Message)
    ensures CommandOf(env, s, m).intent
      == if Understood(s, m).intent.OtherIntent? then UnknownIntent else Understood(s, m).intent
  {
  }

  lemma DispatchLeaves(s: State, m: Message, command: Command)
    ensures var (t, reply) := Dispatch(s, m, command);
      && SameTables(t, s) && t.wallets == s.wallets
      && (reply in {Refused, Failed(SessionTaken)} ==> t == s)
      && (reply.ConfirmationRequired? ==>
            t.actions == s.actions + [Action(m.user.id, m.session, command.intent, command.payload,
              m.now + 600_000_000, Pending, None, None, NoResult)])
      && (!reply.ConfirmationRequired? ==> t.actions == s.actions)
  {
  }

  /** What each reply leaves behind. */
  lemma MessageLeaves(env: Env, s: State, m: Message)
    ensures var (t, reply) := HandleMessage(env, s, m);
      var command := CommandOf(env, s, m);
      && SameTables(t, s)
      && (reply in {Refused, Failed(SessionTaken)} ==> t.conversations == s.conversations)
      && (reply.ConfirmationRequired? ==>
            t.actions == s.actions + [Action(m.user.id, m.session, command.intent, command.payload,
              m.now + 600_000_000, Pending, None, None, NoResult)])
      && (!reply.ConfirmationRequired? ==> t.actions == s.actions)
  {
    DispatchLeaves(Prepared(s, m), m, CommandOf(env, s, m));
  }

  /** A transfer's command tells how the search among the rows ended: the choices it offers, whether it
      warns of anything, and a payload that keeps all that was said. */
  lemma SearchIsTold(env: Env, s: State, m: Message)
    requires Understood(s, m).intent == TransferCreate
    ensures var command, outcome := CommandOf(env, s, m), Search(env, Understood(s, m), m.rows);
      && command.choices == (if outcome.NeedsSelection? then outcome.choices else [])
      && (command.warned <==> outcome != B.Unchanged)
      && (outcome.NeedsSelection? ==> BeneficiarySelection in command.missing)
      && forall n :: n in StoredKeys(TransferCreate) && Get(TransferPayload(Understood(s, m).entities), n) != "" ==>
           Get(command.payload, n) == Get(TransferPayload(Understood(s, m).entities), n)
  {
  }

  // ---------- What a conversation remembers ----------

  /** A message about a transfer or a beneficiary that leaves something missing, in a session that is
      free or its user's own. */
  ghost predicate Opens(env: Env, s: State, m: Message) {
    var command := CommandOf(env, s, m);
    && command.intent in {TransferCreate, BeneficiaryAdd} && command.missing != [] && !Barred(m.user, command.intent)
    && m.session.Some? && !Taken(s, m)
  }

  /** It leaves the conversation active, on its intent and with its slots, whether there was none, one
      that had ended, or one about something else. */
  lemma MissingIsSaved(env: Env, s: State, m: Message)
    requires Opens(env, s, m)
    ensures var (t, reply) := HandleMessage(env, s, m);
      var command := CommandOf(env, s, m);
      && reply == MissingInformation(command.missing)
      && t == s.(conversations := s.conversations[
           m.session.value := Conversation(m.user.id, command.intent, command.payload, true)])
  {
    CommandIntent(env, s, m);
  }

  /** And the owner's next message about the same, or an unclear one, takes the slots on. */
  lemma NextMessageRemembers(env: Env, s: State, m: Message, next: Message)
    requires Opens(env, s, m) && next.session == m.session && next.user.id == m.user.id
    requires IntentOf(next.reading) in {UnknownIntent, CommandOf(env, s, m).intent}
    ensures var t, intent := HandleMessage(env, s, m).0, CommandOf(env, s, m).intent;
      && CommandOf(env, t, next).intent == intent
      && forall n :: n in StoredKeys(intent) ==>
           && (Get(Spoken(next), n) != "" ==> Get(CommandOf(env, t, next).payload, n) == Get(Spoken(next), n))
           && (Get(Spoken(next), n) == "" && Get(CommandOf(env, s, m).payload, n) != "" ==>
                 Get(CommandOf(env, t, next).payload, n) == Get(CommandOf(env, s, m).payload, n))
  {
    var command := CommandOf(env, s, m);
    MissingIsSaved(env, s, m);
    TurnCommand(env, HandleMessage(env, s, m).0, next, Conversation(m.user.id, command.intent, command.payload, true));
  }

  /** The questions whose answer ends the conversation. */
  const ENDING: set<Intent> := {WalletBalance, WalletOverview, WalletLimits, CreditCapacity, CreditSimulate}

  lemma DispatchEnds(s: State, m: Message, command: Command, id: SessionId)
    requires m.session == Some(id) && id in s.conversations && s.conversations[id].user == m.user.id
    ensures var (t, reply) := Dispatch(s, m, command);
      var ended := s.conversations[id := s.conversations[id].(active := false)];
      && (reply.ConfirmationRequired? && command.intent in {TransferCreate, BeneficiaryAdd} ==>
            t.conversations == ended)
      && (reply == Answer ==> t.conversations == if command.intent in ENDING then ended else s.conversations)
      && (command.intent in {CashDeposit, CashWithdraw} ==> t.conversations == s.conversations)
  {
  }

  /** The user's conversation ends with an action about a transfer or a beneficiary and with an answer
      about the wallet or the credit line; other answers and cash requests leave it alone. */
  lemma ConversationEnds(env: Env, s: State, m: Message, id: SessionId)
    requires m.session == Some(id) && id in s.conversations && s.conversations[id].user == m.user.id
    ensures var (t, reply) := HandleMessage(env, s, m);
      var intent, ended := CommandOf(env, s, m).intent, s.conversations[id := s.conversations[id].(active := false)];
      && (reply.ConfirmationRequired? && intent in {TransferCreate, BeneficiaryAdd} ==> t.conversations == ended)
      && (reply == Answer ==> t.conversations == if intent in ENDING then ended else s.conversations)
      && (intent in {CashDeposit, CashWithdraw} ==> t.conversations == s.conversations)
  {
    DispatchEnds(Prepared(s, m), m, CommandOf(env, s, m), id);
  }

  // ---------- Wallets ----------

  /** The intents that read the balance open an empty wallet in euros for a user without one, and no
      message changes a wallet otherwise. */
  lemma WalletIsOpened(env: Env, s: State, m: Message)
    ensures HandleMessage(env, s, m).0.wallets ==
      if m.user.id !in s.wallets && Understood(s, m).intent in {WalletBalance, WalletOverview, WalletLimits,
           CreditCapacity, CreditSimulate, CashCapacity, CashDeposit, CashWithdraw}
      then s.wallets[m.user.id := Wallet(0.0, "EUR")] else s.wallets
  {
    DispatchLeaves(Prepared(s, m), m, CommandOf(env, s, m));
  }

  /** A simulation needs an amount that is a decimal. */
  lemma SimulationNeedsAmount(env: Env, s: State, m: Message)
    requires Understood(s, m).intent == CreditSimulate
    ensures var text := Get(Understood(s, m).entities, Amount);
      CommandOf(env, s, m).missing == if text != "" && env.decimalOf(text).Some? then [] else [Amount]
  {
  }
}
