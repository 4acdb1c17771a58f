/** What a message leaves missing, what a pending action is sure to hold, and why a dialogue
    about one intent can only move forward. */
module SlotFilling {
  import opened Assistant
  import B = Beneficiaries
  import opened Options
  import opened Slots

  /** The keys the payload of an intent has room for. */
  function StoredKeys(intent: Intent): set<Name> {
    match intent
    case TransferCreate =>
      {PartnerName, CountryDestination, RecipientName, RecipientPhone, AccountRef, Amount, OriginCurrency, SenderName}
    case BeneficiaryAdd => {RecipientName, RecipientPhone, AccountRef, PartnerName, CountryDestination}
    case _ => {}
  }

  function Required(metadata: Metadata, intent: Intent): set<Name> {
    RequiredNames(SlotsOf(metadata, intent))
  }

  lemma UnderstoodMissing(s: State, m: Message)
    requires KeepsSlots(Understood(s, m).intent)
    ensures var parsed := Understood(s, m);
      parsed.missing == Missing(SlotsOf(m.metadata, parsed.intent), parsed.entities)
  {
  }

  // ---------- Missing slots of a transfer ----------

  ghost predicate Ambiguous(env: Env, s: State, m: Message) {
    Search(env, Understood(s, m), m.rows).NeedsSelection?
  }

  /** The missing list is the required slots empty in the final payload, in slot order,
      then `beneficiary_selection` when the beneficiary is ambiguous. */
  ghost predicate ListsMissing(command: Command, slots: seq<Slot>, ambiguous: bool) {
    command.missing == Missing(slots, command.payload) + if ambiguous then [BeneficiarySelection] else []
  }

  ghost predicate MissingExactly(env: Env, s: State, m: Message) {
    ListsMissing(CommandOf(env, s, m), SlotsOf(m.metadata, TransferCreate), Ambiguous(env, s, m))
  }

  lemma TransferListsMissing(parsed: Parsed, slots: seq<Slot>, outcome: B.Outcome)
    requires parsed.missing == Missing(slots, parsed.entities)
    requires RequiredNames(slots) <= StoredKeys(TransferCreate) - {AccountRef}
    ensures ListsMissing(TransferCommand(parsed, slots, outcome), slots, outcome.NeedsSelection?)
  {
    MissingAgree(slots, parsed.entities, TransferPayload(parsed.entities));
    MissingIsExact(slots, TransferCommand(parsed, slots, outcome).payload);
  }

  lemma MissingSlotExactness(env: Env, s: State, m: Message)
    requires Understood(s, m).intent == TransferCreate
    requires Required(m.metadata, TransferCreate) <= StoredKeys(TransferCreate) - {AccountRef}
    ensures MissingExactly(env, s, m)
  {
    UnderstoodMissing(s, m);
    TransferListsMissing(Understood(s, m), SlotsOf(m.metadata, TransferCreate),
      Search(env, Understood(s, m), m.rows));
  }

  /** The same for any slot table, as long as nothing required was understood that the payload does not
      store, and the table does not itself require the selection. */
  lemma TransferListsMissingWhen(parsed: Parsed, slots: seq<Slot>, outcome: B.Outcome)
    requires parsed.missing == Missing(slots, parsed.entities) && Get(parsed.entities, RecipientEmail) == ""
    requires BeneficiarySelection !in RequiredNames(slots)
    requires forall n :: n in RequiredNames(slots) && n !in StoredKeys(TransferCreate) ==> Get(parsed.entities, n) == ""
    ensures ListsMissing(TransferCommand(parsed, slots, outcome), slots, outcome.NeedsSelection?)
  {
    MissingAgree(slots, parsed.entities, TransferPayload(parsed.entities));
    MissingIsExact(slots, TransferCommand(parsed, slots, outcome).payload);
  }

  /** A first message of an active, verified user that spells out `entities`. */
  function Opening(intent: Intent, entities: Fields, metadata: Metadata): Message {
    Message(User(0, Active, false, Verified), None, Reading(intent, entities, None, None), metadata, [], 0)
  }

  const EMPTY: State := State(map[], [], [], [], [], map[])

  /** With no rows to search in, no beneficiary is found. */
  ghost predicate FindsNothing(env: Env) {
    forall fields: Fields :: env.search(fields, []) == B.Unchanged
  }

  lemma SearchFindsNothing(env: Env, ratio: B.Ratio)
    requires env.search == B.SearchWith(ratio)
    ensures FindsNothing(env)
  {
    assert B.Candidates([]) == [];
  }

  lemma OpeningIsRead(env: Env, entities: Fields, metadata: Metadata)
    requires FindsNothing(env)
    ensures var m := Opening(TransferCreate, entities, metadata);
      && Understood(EMPTY, m) == Parsed(TransferCreate, entities, Missing(SlotsOf(metadata, TransferCreate), entities))
      && CommandOf(env, EMPTY, m).payload == TransferPayload(entities)
      && CommandOf(env, EMPTY, m).missing == Missing(SlotsOf(metadata, TransferCreate), entities)
      && !Ambiguous(env, EMPTY, m)
  {
  }

  // ---------- What a pending action holds ----------

  /** Every required slot that the payload of the intent stores is filled. */
  ghost predicate PayloadComplete(intent: Intent, slots: seq<Slot>, payload: Fields) {
    forall n :: n in RequiredNames(slots) && n in StoredKeys(intent) ==> Get(payload, n) != ""
  }

  /** The keys that a pending action of the intent is sure to fill when the slot table requires them. */
  function SureKeys(intent: Intent): set<Name> {
    match intent
    case CashDeposit => {Amount, Currency, WalletCurrency}
    case CashWithdraw => {Amount, Currency, WalletCurrency, ProviderName, MobileNumber}
    case _ => StoredKeys(intent)
  }

  /** The slots that were required when action `a` was created, as far as its payload stores them;
      for a cash request, all that it cannot do without. */
  ghost predicate Complete(metadata: Metadata, a: Action) {
    match a.intent
    case TransferCreate | BeneficiaryAdd => PayloadComplete(a.intent, SlotsOf(metadata, a.intent), a.payload)
    case CashDeposit | CashWithdraw =>
      Get(a.payload, Amount) != "0" && forall n :: n in SureKeys(a.intent) ==> Get(a.payload, n) != ""
    case _ => false
  }

  ghost predicate Creates(env: Env, s: State, m: Message) {
    HandleMessage(env, s, m).1.ConfirmationRequired?
  }

  lemma TransferCarries(parsed: Parsed, slots: seq<Slot>, outcome: B.Outcome, n: Name)
    requires n in StoredKeys(TransferCreate) && Get(parsed.entities, n) != ""
    ensures Get(TransferCommand(parsed, slots, outcome).payload, n) == Get(parsed.entities, n)
  {
    assert n != MatchSource && n != MatchName;
    assert Get(TransferPayload(parsed.entities), n) == Get(parsed.entities, n);
    B.OnlyEmptyFieldsChange(TransferPayload(parsed.entities), outcome, n);
  }

  /** A transfer command that misses nothing fills every required slot it stores, however the
      search for the beneficiary ended. */
  lemma TransferIsComplete(parsed: Parsed, slots: seq<Slot>, outcome: B.Outcome)
    requires parsed.missing == Missing(slots, parsed.entities)
    requires TransferCommand(parsed, slots, outcome).missing == []
    ensures PayloadComplete(TransferCreate, slots, TransferCommand(parsed, slots, outcome).payload)
  {
    var payload := TransferCommand(parsed, slots, outcome).payload;
    forall n | n in RequiredNames(slots) && n in StoredKeys(TransferCreate) ensures Get(payload, n) != "" {
      if outcome.Unchanged? {
        MissingIsExact(slots, parsed.entities);
        assert Get(parsed.entities, n) != "";
        TransferCarries(parsed, slots, outcome, n);
      } else {
        MissingIsExact(slots, payload);
      }
    }
  }

  lemma OtherIsComplete(env: Env, parsed: Parsed, slots: seq<Slot>, walletCurrency: string)
    requires parsed.intent == BeneficiaryAdd
    requires parsed.missing == Missing(slots, parsed.entities) == []
    ensures PayloadComplete(BeneficiaryAdd, slots, ResolveOther(env, parsed, walletCurrency).payload)
  {
    MissingIsExact(slots, parsed.entities);
  }

  lemma CashIsComplete(env: Env, parsed: Parsed, walletCurrency: string)
    requires parsed.intent in {CashDeposit, CashWithdraw} && walletCurrency != ""
    requires ResolveOther(env, parsed, walletCurrency).missing == []
    ensures var payload := ResolveOther(env, parsed, walletCurrency).payload;
      Get(payload, Amount) != "0" && forall n :: n in SureKeys(parsed.intent) ==> Get(payload, n) != ""
  {
  }

  lemma DispatchCreates(s: State, m: Message, command: Command)
    ensures Dispatch(s, m, command).1.ConfirmationRequired? <==>
      command.missing == [] && command.intent in {TransferCreate, BeneficiaryAdd, CashDeposit, CashWithdraw}
    ensures Dispatch(s, m, command).1.ConfirmationRequired? ==>
      && Dispatch(s, m, command).0.actions == s.actions + [NewAction(m, command)]
      && Dispatch(s, m, command).1.action == |s.actions|
    ensures !Dispatch(s, m, command).1.ConfirmationRequired? ==> Dispatch(s, m, command).0.actions == s.actions
  {
  }

  lemma CommandIsComplete(env: Env, s: State, m: Message)
    requires CommandOf(env, s, m).missing == []
    requires CommandOf(env, s, m).intent in {TransferCreate, BeneficiaryAdd, CashDeposit, CashWithdraw}
    ensures Complete(m.metadata, NewAction(m, CommandOf(env, s, m)))
  {
    var command, parsed := CommandOf(env, s, m), Understood(s, m);
    var slots := SlotsOf(m.metadata, parsed.intent);
    if parsed.intent == TransferCreate {
      UnderstoodMissing(s, m);
      TransferIsComplete(parsed, slots, Search(env, parsed, m.rows));
    } else if parsed.intent == BeneficiaryAdd {
      UnderstoodMissing(s, m);
      OtherIsComplete(env, parsed, slots, if m.user.id in s.wallets then CurrencyOf(s.wallets[m.user.id]) else "EUR");
    } else {
      CashIsComplete(env, parsed, if m.user.id in s.wallets then CurrencyOf(s.wallets[m.user.id]) else "EUR");
    }
  }

  /** What a cash request cannot do without. */
  function CashRequired(intent: Intent): set<Name> {
    if intent == CashWithdraw then {Amount, ProviderName, MobileNumber} else {Amount}
  }

  lemma CashResolution(env: Env, parsed: Parsed, walletCurrency: string, n: Name)
    requires parsed.intent in {CashDeposit, CashWithdraw} && walletCurrency != ""
    ensures var command, said := ResolveOther(env, parsed, walletCurrency), parsed.entities;
      && command.intent == parsed.intent
      && (n in {Amount, ProviderName, MobileNumber, Note} ==> Get(command.payload, n) == Get(said, n))
      && Get(command.payload, Currency) == (if Get(said, Currency) != "" then Get(said, Currency) else walletCurrency)
      && (n in command.missing <==>
           n in CashRequired(command.intent) && (Get(said, n) == "" || (n == Amount && Get(said, n) == "0")))
  {
  }

  /** A cash command says what the message said, in the wallet's currency unless another is named;
      it misses exactly the required texts that are empty, an amount of `0` counting as empty. */
  lemma CashCommandIsExact(env: Env, s: State, m: Message, n: Name)
    requires Understood(s, m).intent in {CashDeposit, CashWithdraw}
    ensures var command, said := CommandOf(env, s, m), Understood(s, m).entities;
      && command.intent == Understood(s, m).intent
      && (n in {Amount, ProviderName, MobileNumber, Note} ==> Get(command.payload, n) == Get(said, n))
      && Get(command.payload, Currency) == (
           if Get(said, Currency) != "" then Get(said, Currency)
           else CurrencyOf(WithWallet(s, m.user.id).wallets[m.user.id]))
      && (n in command.missing <==>
           n in CashRequired(command.intent) && (Get(said, n) == "" || (n == Amount && Get(said, n) == "0")))
  {
    var currency := if m.user.id in s.wallets then CurrencyOf(s.wallets[m.user.id]) else "EUR";
    CashResolution(env, Understood(s, m), currency, n);
  }

  /** A message that asks for a confirmation has just stored one action: pending, its user's,
      good for ten minutes, complete, and allowed by the policy. Any other leaves them alone. */
  lemma PendingIsComplete(env: Env, s: State, m: Message)
    ensures Creates(env, s, m) <==>
      && Allowed(m.user, CommandOf(env, s, m).intent) && CommandOf(env, s, m).missing == []
      && CommandOf(env, s, m).intent in {TransferCreate, BeneficiaryAdd, CashDeposit, CashWithdraw}
    ensures Creates(env, s, m) ==>
      var a := NewAction(m, CommandOf(env, s, m));
      && HandleMessage(env, s, m).0.actions == s.actions + [a]
      && HandleMessage(env, s, m).1.action == |s.actions|
      && Complete(m.metadata, a) && Allowed(m.user, a.intent)
    ensures !Creates(env, s, m) ==> HandleMessage(env, s, m).0.actions == s.actions
  {
    var command := CommandOf(env, s, m);
    DispatchCreates(Prepared(s, m), m, command);
    if Creates(env, s, m) {
      CommandIsComplete(env, s, m);
    }
  }

  ghost predicate HoldsAllRequired(metadata: Metadata, a: Action) {
    forall n :: n in Required(metadata, a.intent) ==> Get(a.payload, n) != ""
  }

  lemma CompleteHoldsAll(metadata: Metadata, a: Action)
    requires Complete(metadata, a) && Required(metadata, a.intent) <= SureKeys(a.intent)
    ensures HoldsAllRequired(metadata, a)
  {
  }

  // ---------- A dialogue moves forward ----------

  /** `m` is a turn of the owner of conversation `c` that stays on its intent. */
  ghost predicate Turn(s: State, m: Message, c: Conversation) {
    && LoadConversation(s, m.session, m.user.id) == Some(c)
    && c.active && KeepsSlots(c.intent)
    && (IntentOf(m.reading) == UnknownIntent || IntentOf(m.reading) == c.intent)
  }

  /** What the user just said in turn `m`. */
  function Spoken(m: Message): Fields {
    EntitiesFor(IntentOf(m.reading), m.reading.entities)
  }

  /** `payload` holds, in every slot of the intent, what turn `m` said, else what the conversation
      already held. */
  ghost predicate CarriesOn(m: Message, c: Conversation, payload: Fields) {
    forall n :: n in StoredKeys(c.intent) ==>
      && (Get(Spoken(m), n) != "" ==> Get(payload, n) == Get(Spoken(m), n))
      && (Get(Spoken(m), n) == "" && Get(c.slots, n) != "" ==> Get(payload, n) == Get(c.slots, n))
  }

  lemma BeneficiaryCarries(env: Env, parsed: Parsed, walletCurrency: string, n: Name)
    requires parsed.intent == BeneficiaryAdd
    requires n in StoredKeys(BeneficiaryAdd) && Get(parsed.entities, n) != ""
    ensures Get(ResolveOther(env, parsed, walletCurrency).payload, n) == Get(parsed.entities, n)
  {
  }

  /** The payload holds what was understood, slot by slot. */
  lemma CommandCarries(env: Env, s: State, m: Message, n: Name)
    requires KeepsSlots(Understood(s, m).intent)
    requires n in StoredKeys(Understood(s, m).intent) && Get(Understood(s, m).entities, n) != ""
    ensures Get(CommandOf(env, s, m).payload, n) == Get(Understood(s, m).entities, n)
  {
    var parsed := Understood(s, m);
    if parsed.intent == TransferCreate {
      TransferCarries(parsed, SlotsOf(m.metadata, TransferCreate), Search(env, parsed, m.rows), n);
    } else {
      BeneficiaryCarries(env, parsed, if m.user.id in s.wallets then CurrencyOf(s.wallets[m.user.id]) else "EUR", n);
    }
  }

  lemma CarriesFills(m: Message, c: Conversation, payload: Fields)
    requires CarriesOn(m, c, payload)
    ensures (FilledKeys(c.slots) + FilledKeys(Spoken(m))) * StoredKeys(c.intent) <= FilledKeys(payload)
  {
    forall n | n in (FilledKeys(c.slots) + FilledKeys(Spoken(m))) * StoredKeys(c.intent)
      ensures n in FilledKeys(payload) {
      assert Get(payload, n) != "";
    }
  }

  /** The command of a turn is about the same intent and carries the slots on. */
  lemma TurnCommand(env: Env, s: State, m: Message, c: Conversation)
    requires Turn(s, m, c)
    ensures CommandOf(env, s, m).intent == c.intent
    ensures CarriesOn(m, c, CommandOf(env, s, m).payload)
  {
    var parsed := Understood(s, m);
    assert parsed.intent == c.intent;
    assert parsed.entities == Merge(c.slots, Spoken(m));
    forall n | n in StoredKeys(c.intent) && Get(parsed.entities, n) != ""
      ensures Get(CommandOf(env, s, m).payload, n) == Get(parsed.entities, n)
    {
      CommandCarries(env, s, m, n);
    }
  }

  lemma DispatchTurn(s: State, m: Message, c: Conversation, command: Command)
    requires LoadConversation(s, m.session, m.user.id) == Some(c) && c.active
    requires command.intent == c.intent && KeepsSlots(c.intent)
    ensures var (after, reply) := Dispatch(s, m, command);
      match reply
      case MissingInformation(_) =>
        LoadConversation(after, m.session, m.user.id) == Some(Conversation(m.user.id, c.intent, command.payload, true))
      case ConfirmationRequired(_) =>
        && after.actions == s.actions + [NewAction(m, command)]
        && LoadConversation(after, m.session, m.user.id) == Some(c.(active := false))
      case _ => false
  {
  }

  /** A turn keeps every filled slot and adds those it supplies, the newest value winning: into the
      saved conversation, or into the action it creates, which ends the conversation. A refused
      turn changes nothing. */
  lemma TurnMovesForward(env: Env, s: State, m: Message, c: Conversation)
    requires Turn(s, m, c)
    ensures var (after, reply) := HandleMessage(env, s, m);
      var command := CommandOf(env, s, m);
      && command.intent == c.intent && CarriesOn(m, c, command.payload)
      && match reply
         case Refused => !Allowed(m.user, c.intent) && after == s
         case MissingInformation(_) =>
           LoadConversation(after, m.session, m.user.id)
           == Some(Conversation(m.user.id, c.intent, command.payload, true))
         case ConfirmationRequired(_) =>
           && after.actions == s.actions + [NewAction(m, command)]
           && LoadConversation(after, m.session, m.user.id) == Some(c.(active := false))
         case _ => false
  {
    TurnCommand(env, s, m, c);
    DispatchTurn(s, m, c, CommandOf(env, s, m));
    assert Prepared(s, m) == s;
  }
}
