/** What one request may do: the law of the AI gateway, and the proof that it obeys it. */
module AssistantLaw {
  import opened Assistant
  import opened Fees
  import opened Options
  import opened SlotFilling
  import opened Slots
  import opened Text

  datatype Event = Said(m: Message) | Decided(d: Decision) | WalletsChanged(wallets: map<UserId, Wallet>)

  function Step(env: Env, s: State, e: Event): State {
    match e
    case Said(m) => HandleMessage(env, s, m).0
    case Decided(d) => Confirm(env, s, d).0
    case WalletsChanged(wallets) => s.(wallets := wallets)
  }

  // ---------- One confirmation ----------

  datatype BeneficiaryKey = BeneficiaryKey(user: UserId, partner: string, phone: string, account: string)

  function KeyOf(row: Beneficiary): BeneficiaryKey {
    BeneficiaryKey(row.user, row.partner, row.phone, Lower(row.email))
  }

  /** `row` was inserted, no row having its key, or took the place of the row with its key. */
  ghost predicate OneRowWritten(before: seq<Beneficiary>, after: seq<Beneficiary>, row: Beneficiary) {
    || (after == before + [row] && forall i :: 0 <= i < |before| ==> KeyOf(before[i]) != KeyOf(row))
    || exists i :: 0 <= i < |before| && after == before[i := row] && KeyOf(before[i]) == KeyOf(row)
  }

  /** `a`, pending in `before`, has been executed: exactly one table gained what its payload says. */
  ghost predicate Effect(env: Env, before: State, after: State, a: Action, user: User) {
    match a.result
    case NoResult => false
    case SavedAs(row) =>
      && a.intent == BeneficiaryAdd
      && after.cashRequests == before.cashRequests && after.transfers == before.transfers
      && OneRowWritten(before.beneficiaries, after.beneficiaries, row)
      && SameBeneficiary(row, a.user, a.payload) && row.active
      && (Get(a.payload, RecipientName) != "" ==> row.name == Get(a.payload, RecipientName))
      && (Get(a.payload, CountryDestination) != "" ==> row.country == Get(a.payload, CountryDestination))
    case Requested(k) =>
      && after.beneficiaries == before.beneficiaries && after.transfers == before.transfers
      && k == |before.cashRequests| && |after.cashRequests| == k + 1 && after.cashRequests[..k] == before.cashRequests
      && CashMatches(env, before, a, after.cashRequests[k])
    case Sent(k) =>
      && a.intent == TransferCreate && Allowed(user, TransferCreate)
      && k == |before.transfers| && TransferAdded(env, before, after, a)
  }

  ghost predicate TransferAdded(env: Env, before: State, after: State, a: Action) {
    && after.beneficiaries == before.beneficiaries && after.cashRequests == before.cashRequests
    && |after.transfers| == |before.transfers| + 1 && after.transfers[..|before.transfers|] == before.transfers
    && TransferMatches(env, a, after.transfers[|before.transfers|])
  }

  ghost predicate CashMatches(env: Env, before: State, a: Action, r: CashRequest) {
    && r.user == a.user
    && AmountOf(env, a.payload) == Some(r.amount) && r.amount > 0.0 && r.total == r.amount + r.fee
    && (Get(a.payload, Currency) != "" ==> r.currency == Get(a.payload, Currency)) && r.note == Get(a.payload, Note)
    && match a.intent
       case CashDeposit => r.kind == Deposit && r.fee == 0.0 && r.mobile == "" && r.provider == ""
       case CashWithdraw =>
         && r.kind == Withdraw && r.fee == WithdrawalFee(r.amount)
         && r.mobile == Strip(Get(a.payload, MobileNumber)) != ""
         && r.provider == Strip(Get(a.payload, ProviderName)) != ""
         && a.user in before.wallets && r.total <= before.wallets[a.user].available
       case _ => false
  }

  ghost predicate TransferMatches(env: Env, a: Action, t: Transfer) {
    && t.user == a.user && AmountOf(env, a.payload) == Some(t.amount) && ValidTransfer(env, t)
    && t.partner == Get(a.payload, PartnerName) && t.name == Get(a.payload, RecipientName)
    && t.phone == Get(a.payload, RecipientPhone) && t.country == Strip(Get(a.payload, CountryDestination))
    && t.email == Account(a.payload) && t.sender == Get(a.payload, SenderName)
    && t.originCurrency == Get(a.payload, OriginCurrency)
  }

  ghost predicate SameTables(s: State, t: State) {
    s.beneficiaries == t.beneficiaries && s.cashRequests == t.cashRequests && s.transfers == t.transfers
  }

  /** `b` is `a` with a later status. */
  ghost predicate SameRequest(a: Action, b: Action) {
    a.user == b.user && a.session == b.session && a.intent == b.intent
    && a.payload == b.payload && a.expiresAt == b.expiresAt
  }

  ghost predicate KnownIntent(a: Action) {
    a.intent in {TransferCreate, BeneficiaryAdd, CashDeposit, CashWithdraw}
  }

  /** What confirming or cancelling action `id` can do to it and to the tables. */
  ghost predicate Settles(env: Env, s: State, t: State, d: Decision, a: Action, b: Action) {
    && a.status == Pending && a.user == d.user.id && SameRequest(a, b)
    && (match b.status
        case Pending => false
        case Executed =>
          && d.confirm && d.now <= a.expiresAt && b.executedAt == Some(d.now) && Effect(env, s, t, b, d.user)
          && (b.result.Sent? ==> !d.cut)
        case Cancelled => d.now <= a.expiresAt && SameTables(s, t) && b.result == a.result
        case Expired => a.expiresAt < d.now && SameTables(s, t) && b.result == a.result
        case Confirmed => !KnownIntent(a) && SameTables(s, t) && b.result == a.result)
  }

  lemma SameKey(row: Beneficiary, user: UserId, payload: Fields)
    ensures SameBeneficiary(row, user, payload) ==> KeyOf(UpdatedBeneficiary(row, payload)) == KeyOf(row)
    ensures KeyOf(row) == KeyOf(InsertedBeneficiary(user, payload)) <==> SameBeneficiary(row, user, payload)
  {
    LowerIsIdempotent(Strip(Account(payload)));
  }

  lemma WriteIsSaved(rows: seq<Beneficiary>, user: UserId, payload: Fields)
    ensures var (after, row) := WriteBeneficiary(rows, user, payload);
      && OneRowWritten(rows, after, row) && SameBeneficiary(row, user, payload) && row.active
      && (Get(payload, RecipientName) != "" ==> row.name == Get(payload, RecipientName))
      && (Get(payload, CountryDestination) != "" ==> row.country == Get(payload, CountryDestination))
  {
    var (after, row) := WriteBeneficiary(rows, user, payload);
    SameKey(row, user, payload);
    match FindBeneficiary(rows, user, payload)
    case None =>
      forall i | 0 <= i < |rows| ensures KeyOf(rows[i]) != KeyOf(row) {
        SameKey(rows[i], user, payload);
      }
    case Some(i) =>
      SameKey(rows[i], user, payload);
      assert after == rows[i := row] && KeyOf(rows[i]) == KeyOf(row);
  }

  ghost predicate Due(s: State, d: Decision) {
    && d.action < |s.actions| && s.actions[d.action].user == d.user.id && d.confirm
    && s.actions[d.action].status == Pending && d.now <= s.actions[d.action].expiresAt
  }

  /** The confirmation was cut short: the transfer is there, and its action is still pending. */
  ghost predicate Orphans(env: Env, s: State, t: State, d: Decision) {
    && Due(s, d) && d.cut && t.actions == s.actions
    && s.actions[d.action].intent == TransferCreate && Allowed(d.user, TransferCreate)
    && TransferAdded(env, s, t, s.actions[d.action])
  }

  lemma PerformBeneficiary(env: Env, s: State, d: Decision)
    requires Due(s, d) && s.actions[d.action].intent == BeneficiaryAdd
    ensures var t := Perform(env, s, d).0;
      |t.actions| == |s.actions| && Settles(env, s, t, d, s.actions[d.action], t.actions[d.action])
  {
    WriteIsSaved(s.beneficiaries, d.user.id, s.actions[d.action].payload);
  }

  lemma PerformCash(env: Env, s: State, d: Decision)
    requires Due(s, d) && (s.actions[d.action].intent == CashDeposit || s.actions[d.action].intent == CashWithdraw)
    ensures var t := Perform(env, s, d).0;
      |t.actions| == |s.actions| && (t == s || Settles(env, s, t, d, s.actions[d.action], t.actions[d.action]))
  {
    var a := s.actions[d.action];
    var outcome := PrepareCash(env, s, d.user.id, a.intent, a.payload);
    if outcome.CashAccepted? {
      assert CashMatches(env, s, a, outcome.request);
    }
  }

  lemma PerformTransfer(env: Env, s: State, d: Decision)
    requires Due(s, d) && s.actions[d.action].intent == TransferCreate
    ensures var t := Perform(env, s, d).0;
      && |t.actions| == |s.actions|
      && (t == s || Orphans(env, s, t, d) || Settles(env, s, t, d, s.actions[d.action], t.actions[d.action]))
      && (Perform(env, s, d).1 == Failed(CutShort) <==> Orphans(env, s, t, d))
  {
  }

  lemma PerformSettles(env: Env, s: State, d: Decision)
    requires Due(s, d)
    ensures var t := Perform(env, s, d).0;
      && |t.actions| == |s.actions|
      && (t == s || Orphans(env, s, t, d) || Settles(env, s, t, d, s.actions[d.action], t.actions[d.action]))
      && (Perform(env, s, d).1 == Failed(CutShort) <==> Orphans(env, s, t, d))
  {
    match s.actions[d.action].intent
    case BeneficiaryAdd => PerformBeneficiary(env, s, d);
    case CashDeposit | CashWithdraw => PerformCash(env, s, d);
    case TransferCreate => PerformTransfer(env, s, d);
    case _ =>
  }

  lemma PerformFrame(env: Env, s: State, d: Decision)
    requires d.action < |s.actions|
    ensures var t := Perform(env, s, d).0;
      && |t.actions| == |s.actions|
      && t.conversations == s.conversations && t.wallets == s.wallets
      && (forall id :: 0 <= id < |s.actions| && id != d.action ==> t.actions[id] == s.actions[id])
      && (Perform(env, s, d).1.Failed? && Perform(env, s, d).1.failure != CutShort ==> t == s)
  {
  }

  /** A confirmation touches one action at most, its owner's and still pending, and then settles
      it; or it is cut short and leaves an orphan transfer, and that is what its failure then says.
      When the request fails for any reason but that and the expiry, nothing changes at all. */
  lemma ConfirmSettles(env: Env, s: State, d: Decision)
    ensures var (t, reply) := Confirm(env, s, d);
      && |t.actions| == |s.actions|
      && t.conversations == s.conversations && t.wallets == s.wallets
      && (forall id :: 0 <= id < |s.actions| && id != d.action ==> t.actions[id] == s.actions[id])
      && (t == s || Orphans(env, s, t, d)
          || (d.action < |s.actions| && Settles(env, s, t, d, s.actions[d.action], t.actions[d.action])))
      && (reply == Failed(CutShort) <==> Orphans(env, s, t, d))
      && (reply.Failed? && reply.failure !in {HasExpired, CutShort} ==> t == s)
  {
    if Due(s, d) {
      PerformSettles(env, s, d);
      PerformFrame(env, s, d);
    }
  }

  /** What a withdrawal, a transfer or another confirmed action still needs when it is due. */
  ghost predicate Ready(env: Env, s: State, d: Decision, a: Action) {
    var amount := AmountOf(env, a.payload);
    match a.intent
    case BeneficiaryAdd => true
    case CashDeposit => a.user in s.wallets && amount.Some? && amount.value > 0.0
    case CashWithdraw =>
      && a.user in s.wallets && amount.Some? && amount.value > 0.0
      && Strip(Get(a.payload, MobileNumber)) != "" && Strip(Get(a.payload, ProviderName)) != ""
      && WithdrawalTotal(amount.value) <= s.wallets[a.user].available
    case TransferCreate =>
      && Allowed(d.user, TransferCreate) && d.accepted && !d.cut
      && amount.Some? && ValidTransfer(env, TransferOf(a.user, a.payload, amount.value))
    case _ => false
  }

  /** What a decision must do to a pending action of its owner. */
  ghost predicate Acts(env: Env, s: State, t: State, d: Decision) {
    (d.action < |s.actions| && s.actions[d.action].user == d.user.id && s.actions[d.action].status == Pending) ==>
      && d.action < |t.actions|
      && var a, status := s.actions[d.action], t.actions[d.action].status;
         if a.expiresAt < d.now then status == Expired
         else if !d.confirm then status == Cancelled
         else if a.intent == TransferCreate && !Allowed(d.user, TransferCreate) then status == Cancelled
         else status == Executed <==> Ready(env, s, d, a)
  }

  lemma ConfirmActs(env: Env, s: State, d: Decision)
    ensures Acts(env, s, Confirm(env, s, d).0, d)
  {
  }

  /** The decision takes a due action to the transfer core, which accepts its transfer. */
  ghost predicate CoreAccepts(env: Env, s: State, d: Decision) {
    Due(s, d) && s.actions[d.action].intent == TransferCreate && Ready(env, s, d.(cut := false), s.actions[d.action])
  }

  /** An accepted transfer is recorded in any case; its action is settled if and only if the request
      is not cut short, and a cut one leaves it for another confirmation. */
  lemma TransferSettlesUnlessCut(env: Env, s: State, d: Decision)
    requires CoreAccepts(env, s, d)
    ensures var t := Confirm(env, s, d).0;
      && TransferAdded(env, s, t, s.actions[d.action])
      && (t.actions[d.action].status != Pending <==> !d.cut)
      && (d.cut ==> t.actions == s.actions && forall again: Decision ::
            CoreAccepts(env, s, again) ==> CoreAccepts(env, t, again))
  {
    ConfirmSettles(env, s, d);
  }

  /** A confirmation leaves an orphan exactly when the core accepts its transfer and it is cut. */
  lemma OrphansIff(env: Env, s: State, d: Decision)
    ensures Orphans(env, s, Confirm(env, s, d).0, d) <==> CoreAccepts(env, s, d) && d.cut
  {
    if CoreAccepts(env, s, d) {
      TransferSettlesUnlessCut(env, s, d);
    }
  }

  /** So a cut confirmation and one more send the same transfer twice for one action. */
  lemma CutTransferIsSentAgain(env: Env, s: State, d: Decision)
    requires CoreAccepts(env, s, d) && d.cut
    ensures var t := Confirm(env, s, d).0;
      var u := Confirm(env, t, d.(cut := false)).0;
      && |u.transfers| == |s.transfers| + 2 && u.transfers[|s.transfers|] == u.transfers[|s.transfers| + 1]
      && |u.actions| == |s.actions| && u.actions[d.action].status == Executed
      && u.actions[d.action].result == Sent(|s.transfers| + 1)
  {
    var t := Confirm(env, s, d).0;
    assert t.actions == s.actions;
  }

  lemma DispatchFrame(s: State, m: Message, command: Command)
    ensures SameTables(Dispatch(s, m, command).0, s)
  {
  }

  lemma MessageFrame(env: Env, s: State, m: Message)
    ensures SameTables(HandleMessage(env, s, m).0, s)
  {
    DispatchFrame(Prepared(s, m), m, CommandOf(env, s, m));
    assert SameTables(Prepared(s, m), s);
  }

  // ---------- The law ----------

  /** An action that message `m` may ask for. */
  ghost predicate Proper(m: Message, a: Action) {
    && a.user == m.user.id && a.session == m.session && a.expiresAt == m.now + TEN_MINUTES
    && a.status == Pending && a.result == NoResult
    && Complete(m.metadata, a) && Allowed(m.user, a.intent)
  }

  ghost predicate AsksAtMostOnce(m: Message, before: seq<Action>, after: seq<Action>) {
    after == before || (|after| == |before| + 1 && after[..|before|] == before && Proper(m, after[|before|]))
  }

  /** A message of the owner of the conversation, in its session. */
  ghost predicate Belongs(m: Message, session: SessionId, owner: UserId) {
    m.session == Some(session) && m.user.id == owner
  }

  /** A turn is refused without effect, or carries the slots on: in the conversation, or in a new
      action that ends it. */
  ghost predicate Answers(s: State, m: Message, c: Conversation, t: State) {
    match LoadConversation(t, m.session, m.user.id)
    case None => false
    case Some(after) =>
      || (t == s && !Allowed(m.user, c.intent))
      || (after.active && after.intent == c.intent && CarriesOn(m, c, after.slots))
      || (after == c.(active := false) && |t.actions| == |s.actions| + 1
          && t.actions[|s.actions|].intent == c.intent && CarriesOn(m, c, t.actions[|s.actions|].payload))
  }

  /** `m` is about something else than the owner's conversation `c`. */
  ghost predicate Aside(s: State, m: Message, c: Conversation) {
    && LoadConversation(s, m.session, m.user.id) == Some(c)
    && c.active && KeepsSlots(c.intent)
    && IntentOf(m.reading) !in {UnknownIntent, c.intent}
  }

  /** The conversation is left as it was, or it is no longer active and on its intent. */
  ghost predicate Spares(m: Message, c: Conversation, t: State) {
    match LoadConversation(t, m.session, m.user.id)
    case None => false
    case Some(after) => after == c || !after.active || after.intent != c.intent
  }

  ghost predicate Converses(s: State, m: Message, t: State) {
    && (forall session: SessionId, owner: UserId ::
          LoadConversation(s, Some(session), owner).Some? && !Belongs(m, session, owner) ==>
            LoadConversation(t, Some(session), owner) == LoadConversation(s, Some(session), owner))
    && (forall c :: Turn(s, m, c) ==> Answers(s, m, c, t))
    && (forall c :: Aside(s, m, c) ==> Spares(m, c, t))
  }

  /** `t` may follow `s` on event `e`. */
  ghost predicate Obeys(env: Env, s: State, e: Event, t: State) {
    match e
    case Said(m) => SameTables(t, s) && AsksAtMostOnce(m, s.actions, t.actions) && Converses(s, m, t)
    case Decided(d) =>
      && |t.actions| == |s.actions| && t.conversations == s.conversations
      && (forall id :: 0 <= id < |s.actions| && id != d.action ==> t.actions[id] == s.actions[id])
      && Acts(env, s, t, d)
      && (t == s || Orphans(env, s, t, d)
          || (d.action < |s.actions| && Settles(env, s, t, d, s.actions[d.action], t.actions[d.action])))
    case WalletsChanged(wallets) => t == s.(wallets := wallets)
  }

  lemma DispatchElsewhere(s: State, m: Message, command: Command, session: SessionId, owner: UserId)
    requires LoadConversation(s, Some(session), owner).Some? && !Belongs(m, session, owner)
    ensures LoadConversation(Dispatch(s, m, command).0, Some(session), owner)
      == LoadConversation(s, Some(session), owner)
  {
  }

  /** Other users and other sessions leave a conversation as it is. */
  lemma MessageElsewhere(env: Env, s: State, m: Message, session: SessionId, owner: UserId)
    requires LoadConversation(s, Some(session), owner).Some? && !Belongs(m, session, owner)
    ensures LoadConversation(HandleMessage(env, s, m).0, Some(session), owner)
      == LoadConversation(s, Some(session), owner)
  {
    DispatchElsewhere(Prepared(s, m), m, CommandOf(env, s, m), session, owner);
  }

  lemma DispatchAside(s: State, m: Message, c: Conversation, command: Command)
    requires LoadConversation(s, m.session, m.user.id) == Some(c) && command.intent != c.intent
    ensures Spares(m, c, Dispatch(s, m, command).0)
  {
  }

  /** A message about something else leaves the conversation as it is, ends it or replaces it. */
  lemma AsideSpares(env: Env, s: State, m: Message, c: Conversation)
    requires Aside(s, m, c)
    ensures Spares(m, c, HandleMessage(env, s, m).0)
  {
    DispatchAside(Prepared(s, m), m, c, CommandOf(env, s, m));
  }

  lemma MessageConverses(env: Env, s: State, m: Message)
    ensures Converses(s, m, HandleMessage(env, s, m).0)
  {
    var t := HandleMessage(env, s, m).0;
    forall session: SessionId, owner: UserId |
        LoadConversation(s, Some(session), owner).Some? && !Belongs(m, session, owner)
      ensures LoadConversation(t, Some(session), owner) == LoadConversation(s, Some(session), owner)
    {
      MessageElsewhere(env, s, m, session, owner);
    }
    forall c | Turn(s, m, c) ensures Answers(s, m, c, t) {
      TurnMovesForward(env, s, m, c);
    }
    forall c | Aside(s, m, c) ensures Spares(m, c, t) {
      AsideSpares(env, s, m, c);
    }
  }

  /** Every request obeys the law. */
  lemma GatewayObeys(env: Env, s: State, e: Event)
    ensures Obeys(env, s, e, Step(env, s, e))
  {
    match e
    case Said(m) =>
      MessageFrame(env, s, m);
      PendingIsComplete(env, s, m);
      MessageConverses(env, s, m);
    case Decided(d) =>
      ConfirmSettles(env, s, d);
      ConfirmActs(env, s, d);
    case WalletsChanged(_) =>
  }
}
