/** The AI gateway as a state machine: what one message and one confirmation do to the stored
    conversations, pending actions, beneficiaries, cash requests and transfers.
    A request that raises is rolled back to its last commit. Of the rows modelled here, only those of
    the external transfer core are committed before the request ends. Requests are served one at a
    time. */
module Assistant {
  import B = Beneficiaries
  import opened Fees
  import opened Options
  import opened Slots
  import opened Text

  datatype Intent =
    | TransferCreate | BeneficiaryAdd | CashDeposit | CashWithdraw
    | WalletBalance | WalletOverview | WalletLimits | WalletBlockReason
    | CreditCapacity | CreditSimulate | CreditPendingReason
    | CashCapacity | CashRequestStatus
    | TransferStatus | ExplainBlockReason | BeneficiaryList
    | KycStatus | EscrowStatus | P2pOffers | P2pTradeStatus
    | OnboardingGuide | OnboardingScenario
    | UnknownIntent
    | OtherIntent(code: string)

  // ---------- Tables ----------

  type UserId = nat
  type SessionId = nat
  /** Microseconds. */
  type Time = int

  const TEN_MINUTES: int := 600_000_000

  datatype AccountStatus = Active | Frozen | Closed | Suspended | OtherStatus
  datatype Kyc = Verified | Reviewing | OtherKyc
  datatype User = User(id: UserId, status: AccountStatus, transfersBlocked: bool, kyc: Kyc)

  datatype Conversation = Conversation(user: UserId, intent: Intent, slots: Fields, active: bool)

  datatype Status = Pending | Executed | Cancelled | Expired | Confirmed

  /** What an executed action points to: the beneficiary as saved, or the new row. */
  datatype Result = NoResult | SavedAs(row: Beneficiary) | Requested(request: nat) | Sent(transfer: nat)

  datatype Action = Action(
    user: UserId, session: Option<SessionId>, intent: Intent, payload: Fields, expiresAt: Time,
    status: Status, confirmedAt: Option<Time>, executedAt: Option<Time>, result: Result)

  datatype Beneficiary = Beneficiary(
    user: UserId, name: string, phone: string, email: string, partner: string, country: string, active: bool)

  datatype CashKind = Deposit | Withdraw
  datatype CashRequest = CashRequest(
    user: UserId, kind: CashKind, amount: real, fee: real, total: real, currency: string,
    mobile: string, provider: string, note: string)

  datatype Transfer = Transfer(
    user: UserId, partner: string, country: string, name: string, phone: string, email: string, amount: real,
    sender: string, originCurrency: string)

  datatype Wallet = Wallet(available: real, currency: string)

  datatype State = State(
    conversations: map<SessionId, Conversation>,
    actions: seq<Action>,
    beneficiaries: seq<Beneficiary>,
    cashRequests: seq<CashRequest>,
    transfers: seq<Transfer>,
    wallets: map<UserId, Wallet>)

  type Metadata = map<Intent, seq<Slot>>

  function SlotsOf(metadata: Metadata, intent: Intent): seq<Slot> {
    if intent in metadata then metadata[intent] else []
  }

  /** What the state machine leaves open: the search for a beneficiary among the rows read,
      `Decimal(text)` and e-mail validation. */
  datatype Env = Env(
    search: (Fields, seq<B.Row>) -> B.Outcome, decimalOf: string -> Option<real>, validEmail: string -> bool)

  datatype Failure =
    | NotFound | NotPending | HasExpired
    | NoWallet | BadAmount | IncompleteWithdrawal | InsufficientFunds
    | InvalidTransfer | TransferRaised | CutShort | SessionTaken

  datatype Reply =
    | Answer
    | MissingInformation(fields: seq<Name>)
    | ConfirmationRequired(action: nat)
    | Refused
    | ActionCancelled
    | ActionExecuted
    | ActionConfirmed
    | Failed(failure: Failure)

  // ---------- Parsing ----------

  /** What the heuristics, the synonym table and the language model made of a message. */
  datatype Reading = Reading(
    heuristic: Intent, entities: Fields, synonym: Option<Intent>, resolved: Option<Intent>)

  datatype Parsed = Parsed(intent: Intent, entities: Fields, missing: seq<Name>)

  function IntentOf(reading: Reading): Intent {
    var code := match (reading.resolved, reading.synonym)
      case (Some(resolved), _) => resolved
      case (None, Some(synonym)) => synonym
      case (None, None) => reading.heuristic;
    if code == UnknownIntent && reading.synonym.Some? then reading.synonym.value else code
  }

  function Only(entities: Fields, names: set<Name>): Fields {
    map n | n in names :: Get(entities, n)
  }

  function EntitiesFor(intent: Intent, entities: Fields): Fields {
    match intent
    case TransferCreate | BeneficiaryAdd | CashDeposit | CashWithdraw => entities
    case CreditCapacity => Only(entities, {Currency})
    case CreditSimulate => Only(entities, {Amount, Currency})
    case OnboardingGuide => Only(entities, {OtherName("guide_topic")})
    case OnboardingScenario => Only(entities, {OtherName("scenario")})
    case EscrowStatus => Only(entities, {OtherName("order_id")})
    case KycStatus => Only(entities, {OtherName("kyc_view")})
    case P2pTradeStatus => Only(entities, {OtherName("trade_id"), OtherName("p2p_view")})
    case TransferStatus => Only(entities, {OtherName("reference_code")})
    case _ => map[]
  }

  function ParseMessage(reading: Reading, metadata: Metadata): Parsed {
    var intent := IntentOf(reading);
    var entities := EntitiesFor(intent, reading.entities);
    Parsed(intent, entities, Missing(SlotsOf(metadata, intent), entities))
  }

  // ---------- Conversations ----------

  function LoadConversation(s: State, session: Option<SessionId>, user: UserId): Option<Conversation> {
    if session.Some? && session.value in s.conversations && s.conversations[session.value].user == user
    then Some(s.conversations[session.value]) else None
  }

  /** `None` when the session id already belongs to another user: the insert breaks the primary key. */
  function SaveConversation(s: State,
    session: Option<SessionId>, user: UserId, intent: Intent, slots: Fields): Option<State> {
    match session
    case None => Some(s)
    case Some(id) =>
      if id in s.conversations && s.conversations[id].user != user then None
      else Some(s.(conversations := s.conversations[id := Conversation(user, intent, slots, true)]))
  }

  function ClearConversation(s: State, session: Option<SessionId>, user: UserId): State {
    match LoadConversation(s, session, user)
    case None => s
    case Some(conversation) =>
      s.(conversations := s.conversations[session.value := conversation.(active := false)])
  }

  predicate KeepsSlots(intent: Intent) {
    intent == TransferCreate || intent == BeneficiaryAdd
  }

  /** The parsed message once the stored conversation has been taken into account. */
  function Continue(conversation: Option<Conversation>, parsed: Parsed, metadata: Metadata): Parsed {
    match conversation
    case None => parsed
    case Some(c) =>
      if !c.active then parsed
      else
        var intent := if parsed.intent == UnknownIntent then c.intent else parsed.intent;
        if intent == c.intent && KeepsSlots(intent) then
          var entities := Merge(c.slots, parsed.entities);
          Parsed(intent, entities, Missing(SlotsOf(metadata, intent), entities))
        else parsed.(intent := intent)
  }

  // ---------- Resolution ----------

  datatype Command = Command(
    intent: Intent, payload: Fields, missing: seq<Name>, choices: seq<B.Choice>, warned: bool)

  function Account(entities: Fields): string {
    if Get(entities, AccountRef) != "" then Get(entities, AccountRef) else Get(entities, RecipientEmail)
  }

  function TransferPayload(entities: Fields): Fields {
    map[
      PartnerName := Get(entities, PartnerName),
      CountryDestination := Get(entities, CountryDestination),
      RecipientName := Get(entities, RecipientName),
      RecipientPhone := Get(entities, RecipientPhone),
      AccountRef := Account(entities),
      Amount := Get(entities, Amount),
      OriginCurrency := Get(entities, OriginCurrency),
      SenderName := Get(entities, SenderName)
    ]
  }

  function BeneficiaryPayload(entities: Fields): Fields {
    map[
      RecipientName := Get(entities, RecipientName),
      RecipientPhone := Get(entities, RecipientPhone),
      AccountRef := Account(entities),
      PartnerName := Get(entities, PartnerName),
      CountryDestination := Get(entities, CountryDestination)
    ]
  }

  function CashPayload(entities: Fields, walletCurrency: string): Fields {
    map[
      Amount := Get(entities, Amount),
      Currency := if Get(entities, Currency) != "" then Get(entities, Currency) else walletCurrency,
      MobileNumber := Get(entities, MobileNumber),
      ProviderName := Get(entities, ProviderName),
      Note := Get(entities, Note),
      WalletCurrency := walletCurrency
    ]
  }

  function CashMissing(intent: Intent, payload: Fields): seq<Name> {
    (if Get(payload, Amount) == "" || Get(payload, Amount) == "0" then [Amount] else [])
    + (if intent == CashWithdraw && Get(payload, ProviderName) == "" then [ProviderName] else [])
    + (if intent == CashWithdraw && Get(payload, MobileNumber) == "" then [MobileNumber] else [])
  }

  /** The command for a transfer, given how the search for its beneficiary ended. */
  function TransferCommand(parsed: Parsed, slots: seq<Slot>, outcome: B.Outcome): Command {
    var payload := B.Resolved(TransferPayload(parsed.entities), outcome);
    var missing := if outcome.Unchanged? then parsed.missing else Missing(slots, payload);
    var all := if outcome.NeedsSelection? && BeneficiarySelection !in missing
        then missing + [BeneficiarySelection] else missing;
    Command(TransferCreate, payload, all, B.ChoicesOf(outcome), !outcome.Unchanged?)
  }

  function Search(env: Env, parsed: Parsed, rows: seq<B.Row>): B.Outcome {
    env.search(TransferPayload(parsed.entities), rows)
  }

  function ResolveTransfer(env: Env, parsed: Parsed, metadata: Metadata, rows: seq<B.Row>): Command {
    TransferCommand(parsed, SlotsOf(metadata, TransferCreate), Search(env, parsed, rows))
  }

  /** The intents that read the balance, and with it create a missing wallet. */
  predicate ReadsWallet(intent: Intent) {
    intent in {WalletBalance, WalletOverview, WalletLimits, CreditCapacity, CreditSimulate, CashCapacity,
      CashDeposit, CashWithdraw}
  }

  function WithWallet(s: State, user: UserId): State {
    if user in s.wallets then s else s.(wallets := s.wallets[user := Wallet(0.0, "EUR")])
  }

  function CurrencyOf(wallet: Wallet): string {
    if wallet.currency != "" then wallet.currency else "EUR"
  }

  /** The command of an intent other than `transfer.create`. */
  function ResolveOther(env: Env, parsed: Parsed, walletCurrency: string): Command {
    match parsed.intent
    case CashDeposit | CashWithdraw =>
      var payload := CashPayload(parsed.entities, walletCurrency);
      Command(parsed.intent, payload, CashMissing(parsed.intent, payload), [], false)
    case BeneficiaryAdd =>
      Command(BeneficiaryAdd, BeneficiaryPayload(parsed.entities), parsed.missing, [], false)
    case CreditSimulate =>
      var known := Get(parsed.entities, Amount) != "" && env.decimalOf(Get(parsed.entities, Amount)).Some?;
      Command(CreditSimulate, map[], if known then [] else [Amount], [], false)
    case UnknownIntent | OtherIntent(_) => Command(UnknownIntent, map[], [], [], true)
    case _ => Command(parsed.intent, map[], [], [], false)
  }

  // ---------- Policy ----------

  predicate Allowed(user: User, intent: Intent) {
    && !(user.status.Frozen? || user.status.Closed? || user.status.Suspended?)
    && (intent == TransferCreate ==> !user.transfersBlocked && (user.kyc.Verified? || user.kyc.Reviewing?))
  }

  // ---------- One message ----------

  datatype Message = Message(
    user: User, session: Option<SessionId>, reading: Reading, metadata: Metadata, rows: seq<B.Row>, now: Time)

  function NewAction(m: Message, command: Command): Action {
    Action(m.user.id, m.session, command.intent, command.payload, m.now + TEN_MINUTES, Pending, None, None, NoResult)
  }

  function CreatePending(s: State, m: Message, command: Command): State {
    s.(actions := s.actions + [NewAction(m, command)])
  }

  predicate ClearsOnAnswer(intent: Intent) {
    intent in {WalletBalance, WalletOverview, WalletLimits, CreditCapacity, CreditSimulate}
  }

  function Dispatch(s: State, m: Message, command: Command): (State, Reply) {
    match command.intent
    case UnknownIntent | OtherIntent(_) => (s, Refused)
    case CashDeposit | CashWithdraw =>
      if command.missing != [] then (s, MissingInformation(command.missing))
      else (CreatePending(s, m, command), ConfirmationRequired(|s.actions|))
    case TransferCreate | BeneficiaryAdd =>
      if command.missing != [] then
        match SaveConversation(s, m.session, m.user.id, command.intent, command.payload)
        case None => (s, Failed(SessionTaken))
        case Some(saved) => (saved, MissingInformation(command.missing))
      else
        (ClearConversation(CreatePending(s, m, command), m.session, m.user.id), ConfirmationRequired(|s.actions|))
    case _ =>
      if command.missing != [] then (s, MissingInformation(command.missing))
      else if ClearsOnAnswer(command.intent) then (ClearConversation(s, m.session, m.user.id), Answer)
      else (s, Answer)
  }

  function Understood(s: State, m: Message): Parsed {
    Continue(LoadConversation(s, m.session, m.user.id), ParseMessage(m.reading, m.metadata), m.metadata)
  }

  function CommandOf(env: Env, s: State, m: Message): Command {
    var parsed := Understood(s, m);
    if parsed.intent == TransferCreate then ResolveTransfer(env, parsed, m.metadata, m.rows)
    else ResolveOther(env, parsed, if m.user.id in s.wallets then CurrencyOf(s.wallets[m.user.id]) else "EUR")
  }

  function Prepared(s: State, m: Message): State {
    if ReadsWallet(Understood(s, m).intent) then WithWallet(s, m.user.id) else s
  }

  function HandleMessage(env: Env, s: State, m: Message): (State, Reply) {
    var command := CommandOf(env, s, m);
    if !Allowed(m.user, command.intent) then (Prepared(s, m), Refused)
    else Dispatch(Prepared(s, m), m, command)
  }

  // ---------- One confirmation ----------

  /** `accepted` is the outcome of the external transfer core, should it be reached; `cut` tells
      whether the request dies between the core's commit and its own. */
  datatype Decision = Decision(user: User, action: nat, confirm: bool, now: Time, accepted: bool, cut: bool)

  function AmountOf(env: Env, payload: Fields): Option<real> {
    if Get(payload, Amount) == "" then Some(0.0) else env.decimalOf(Get(payload, Amount))
  }

  function NormalizedAccount(payload: Fields): string {
    Lower(Strip(Account(payload)))
  }

  /** The row of `external_beneficiaries` that a `beneficiary.add` payload names. */
  predicate SameBeneficiary(row: Beneficiary, user: UserId, payload: Fields) {
    && row.user == user
    && row.partner == Get(payload, PartnerName)
    && row.phone == Get(payload, RecipientPhone)
    && Lower(row.email) == NormalizedAccount(payload)
  }

  function FindBeneficiary(rows: seq<Beneficiary>, user: UserId, payload: Fields): (found: Option<nat>)
    ensures found.Some? ==> found.value < |rows| && SameBeneficiary(rows[found.value], user, payload)
    ensures found.None? ==> forall i :: 0 <= i < |rows| ==> !SameBeneficiary(rows[i], user, payload)
  {
    if rows == [] then None
    else if SameBeneficiary(rows[|rows| - 1], user, payload) then Some(|rows| - 1)
    else FindBeneficiary(rows[..|rows| - 1], user, payload)
  }

  function OrElse(text: string, other: string): string {
    if text != "" then text else other
  }

  function InsertedBeneficiary(user: UserId, payload: Fields): Beneficiary {
    Beneficiary(user, Get(payload, RecipientName), Get(payload, RecipientPhone), NormalizedAccount(payload),
      Get(payload, PartnerName), Get(payload, CountryDestination), true)
  }

  function UpdatedBeneficiary(row: Beneficiary, payload: Fields): Beneficiary {
    row.(
      name := OrElse(Get(payload, RecipientName), row.name),
      email := OrElse(NormalizedAccount(payload), row.email),
      country := OrElse(Get(payload, CountryDestination), row.country),
      active := true)
  }

  function WriteBeneficiary(rows: seq<Beneficiary>, user: UserId, payload: Fields): (seq<Beneficiary>, Beneficiary) {
    match FindBeneficiary(rows, user, payload)
    case None => (rows + [InsertedBeneficiary(user, payload)], InsertedBeneficiary(user, payload))
    case Some(i) => (rows[i := UpdatedBeneficiary(rows[i], payload)], UpdatedBeneficiary(rows[i], payload))
  }

  datatype CashOutcome = CashRefused(failure: Failure) | CashAccepted(request: CashRequest)

  function PrepareCash(env: Env, s: State, user: UserId, intent: Intent, payload: Fields): CashOutcome {
    if user !in s.wallets then CashRefused(NoWallet)
    else
      var amount := AmountOf(env, payload);
      var currency := OrElse(Get(payload, Currency), CurrencyOf(s.wallets[user]));
      if amount.None? || amount.value <= 0.0 then CashRefused(BadAmount)
      else if intent == CashWithdraw then
        var mobile, provider := Strip(Get(payload, MobileNumber)), Strip(Get(payload, ProviderName));
        var fee := WithdrawalFee(amount.value);
        if mobile == "" || provider == "" then CashRefused(IncompleteWithdrawal)
        else if s.wallets[user].available < amount.value + fee then CashRefused(InsufficientFunds)
        else CashAccepted(CashRequest(user, Withdraw, amount.value, fee, amount.value + fee, currency, mobile,
          provider, Get(payload, Note)))
      else
        CashAccepted(CashRequest(user, Deposit, amount.value, 0.0, amount.value, currency, "", "", Get(payload, Note)))
  }

  function TransferOf(user: UserId, payload: Fields, amount: real): Transfer {
    Transfer(user, Get(payload, PartnerName), Strip(Get(payload, CountryDestination)), Get(payload, RecipientName),
      Get(payload, RecipientPhone), Account(payload), amount, Get(payload, SenderName), Get(payload, OriginCurrency))
  }

  /** The checks of the request model of an external transfer. */
  predicate ValidTransfer(env: Env, t: Transfer) {
    && 2 <= |t.partner| <= 80
    && t.country != ""
    && 2 <= |t.name| <= 120
    && (t.email == "" || env.validEmail(t.email))
    && 0.0 < t.amount <= 100_000_000.0
  }

  function Close(s: State, id: nat, status: Status, confirmedAt: Option<Time>): State
    requires id < |s.actions|
  {
    s.(actions := s.actions[id := s.actions[id].(status := status, confirmedAt := confirmedAt)])
  }

  function Execute(s: State, id: nat, now: Time, result: Result): State
    requires id < |s.actions|
  {
    s.(actions := s.actions[id := s.actions[id].(
      status := Executed, confirmedAt := Some(now), executedAt := Some(now), result := result)])
  }

  /** A confirmed action of each intent; `id` is a live pending action. */
  function Perform(env: Env, s: State, d: Decision): (State, Reply)
    requires d.action < |s.actions|
  {
    var a := s.actions[d.action];
    match a.intent
    case BeneficiaryAdd =>
      var (rows, row) := WriteBeneficiary(s.beneficiaries, d.user.id, a.payload);
      (Execute(s.(beneficiaries := rows), d.action, d.now, SavedAs(row)), ActionExecuted)
    case CashDeposit | CashWithdraw =>
      (match PrepareCash(env, s, d.user.id, a.intent, a.payload)
       case CashRefused(failure) => (s, Failed(failure))
       case CashAccepted(request) =>
         (Execute(s.(cashRequests := s.cashRequests + [request]), d.action, d.now, Requested(|s.cashRequests|)),
          ActionExecuted))
    case TransferCreate =>
      if !Allowed(d.user, TransferCreate) then (Close(s, d.action, Cancelled, a.confirmedAt), Refused)
      else
        var amount := AmountOf(env, a.payload);
        if amount.None? || !ValidTransfer(env, TransferOf(d.user.id, a.payload, amount.value)) then
          (s, Failed(InvalidTransfer))
        else if !d.accepted then (s, Failed(TransferRaised))
        else
          var transfer := TransferOf(d.user.id, a.payload, amount.value);
          if d.cut then (s.(transfers := s.transfers + [transfer]), Failed(CutShort))
          else (Execute(s.(transfers := s.transfers + [transfer]),
                        d.action, d.now, Sent(|s.transfers|)), ActionExecuted)
    case _ => (Close(s, d.action, Confirmed, Some(d.now)), ActionConfirmed)
  }

  function Confirm(env: Env, s: State, d: Decision): (State, Reply) {
    if d.action >= |s.actions| || s.actions[d.action].user != d.user.id then (s, Failed(NotFound))
    else if s.actions[d.action].status != Pending then (s, Failed(NotPending))
    else if s.actions[d.action].expiresAt < d.now then
      (Close(s, d.action, Expired, s.actions[d.action].confirmedAt), Failed(HasExpired))
    else if !d.confirm then (Close(s, d.action, Cancelled, Some(d.now)), ActionCancelled)
    else Perform(env, s, d)
  }
}
