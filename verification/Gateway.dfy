/** The AI gateway as it runs: tables updated in place, request by request. Each method does
    to the tables what the state machine of `Assistant` says. */
module Gateway {
  import opened Assistant
  import B = Beneficiaries
  import opened Fees
  import opened Options
  import SlotFilling
  import opened Slots
  import opened Text

  method ParseUserMessage(reading: Reading, metadata: Metadata) returns (parsed: Parsed)
    ensures parsed == ParseMessage(reading, metadata)
  {
    var intent := IntentOf(reading);
    var entities := EntitiesFor(intent, reading.entities);
    var missing := RequiredMissingFields(SlotsOf(metadata, intent), entities);
    parsed := Parsed(intent, entities, missing);
  }

  class Store {
    const ratio: B.Ratio
    const decimalOf: string -> Option<real>
    const validEmail: string -> bool
    const env: Env := Env(B.SearchWith(ratio), decimalOf, validEmail)

    var conversations: map<SessionId, Conversation>
    var actions: seq<Action>
    var beneficiaries: seq<Beneficiary>
    var cashRequests: seq<CashRequest>
    var transfers: seq<Transfer>
    var wallets: map<UserId, Wallet>

    ghost function Contents(): State
      reads this
    {
      State(conversations, actions, beneficiaries, cashRequests, transfers, wallets)
    }

    constructor (ratio: B.Ratio, decimalOf: string -> Option<real>, validEmail: string -> bool)
      ensures Contents() == SlotFilling.EMPTY && env == Env(B.SearchWith(ratio), decimalOf, validEmail)
    {
      this.ratio, this.decimalOf, this.validEmail := ratio, decimalOf, validEmail;
      conversations, actions, beneficiaries := map[], [], [];
      cashRequests, transfers, wallets := [], [], map[];
    }

    method LoadConversationState(session: Option<SessionId>, user: UserId) returns (c: Option<Conversation>)
      ensures c == LoadConversation(Contents(), session, user)
    {
      c := None;
      if session.Some? && session.value in conversations && conversations[session.value].user == user {
        c := Some(conversations[session.value]);
      }
    }

    method SaveConversationState(session: Option<SessionId>, user: UserId, intent: Intent, slots: Fields)
      returns (ok: bool)
      modifies this`conversations
      ensures var saved := SaveConversation(old(Contents()), session, user, intent, slots);
        ok == saved.Some? && Contents() == if ok then saved.value else old(Contents())
    {
      if session.None? {
        return true;
      }
      var state := LoadConversationState(session, user);
      if state.None? && session.value in conversations {
        return false;
      }
      conversations := conversations[session.value := Conversation(user, intent, slots, true)];
      ok := true;
    }

    method ClearConversationState(session: Option<SessionId>, user: UserId)
      modifies this`conversations
      ensures Contents() == ClearConversation(old(Contents()), session, user)
    {
      var state := LoadConversationState(session, user);
      if state.Some? {
        conversations := conversations[session.value := state.value.(active := false)];
      }
    }

    method CreatePendingAction(m: Message, command: Command) returns (id: nat)
      modifies this`actions
      ensures Contents() == CreatePending(old(Contents()), m, command) && id == |old(actions)|
    {
      id := |actions|;
      actions := actions + [Action(m.user.id, m.session, command.intent, command.payload, m.now + TEN_MINUTES,
        Pending, None, None, NoResult)];
    }

    method LoadWalletCurrency(user: UserId) returns (currency: string)
      modifies this`wallets
      ensures Contents() == WithWallet(old(Contents()), user)
      ensures currency == if user in old(wallets) then CurrencyOf(old(wallets)[user]) else "EUR"
    {
      if user !in wallets {
        wallets := wallets[user := Wallet(0.0, "EUR")];
      }
      currency := CurrencyOf(wallets[user]);
    }

    /** The beginning of `handle_message`: parse, then merge with the saved conversation. */
    method Understand(m: Message) returns (parsed: Parsed)
      ensures parsed == Understood(Contents(), m)
    {
      parsed := ParseUserMessage(m.reading, m.metadata);
      var state := LoadConversationState(m.session, m.user.id);
      if state.Some? && state.value.active {
        if parsed.intent == UnknownIntent {
          parsed := parsed.(intent := state.value.intent);
        }
        if parsed.intent == state.value.intent && KeepsSlots(parsed.intent) {
          var entities := MergeEntities(state.value.slots, parsed.entities);
          var missing := RequiredMissingFields(SlotsOf(m.metadata, parsed.intent), entities);
          parsed := Parsed(parsed.intent, entities, missing);
        }
      }
    }

    /** The end of the `transfer.create` branch: `extra` holds at most `beneficiary_selection`. */
    method FinishTransfer(parsed: Parsed, slots: seq<Slot>, payload: Fields, choices: seq<B.Choice>, warned: bool,
                          extra: seq<Name>, ghost outcome: B.Outcome)
      returns (command: Command)
      requires payload == B.Resolved(TransferPayload(parsed.entities), outcome)
      requires choices == B.ChoicesOf(outcome) && warned == !outcome.Unchanged? && extra == B.ExtraMissing(outcome)
      ensures command == TransferCommand(parsed, slots, outcome)
    {
      var missing := parsed.missing;
      if warned {
        missing := RequiredMissingFields(slots, payload);
      }
      if extra != [] && extra[0] !in missing {
        missing := missing + [extra[0]];
      }
      command := Command(TransferCreate, payload, missing, choices, warned);
    }

    method ResolveTransferCommand(parsed: Parsed, m: Message) returns (command: Command)
      ensures command == ResolveTransfer(env, parsed, m.metadata, m.rows)
    {
      var asked := TransferPayload(parsed.entities);
      var payload, choices, warned, extra := B.ResolveTransferBeneficiary(ratio, asked, m.rows);
      command := FinishTransfer(parsed, SlotsOf(m.metadata, TransferCreate), payload, choices, warned, extra,
        Search(env, parsed, m.rows));
    }

    /** `resolve_intent`. */
    method ResolveCommand(parsed: Parsed, m: Message) returns (command: Command)
      requires parsed == Understood(Contents(), m)
      modifies this`wallets
      ensures Contents() == Prepared(old(Contents()), m)
      ensures command == CommandOf(env, old(Contents()), m)
    {
      if parsed.intent == TransferCreate {
        command := ResolveTransferCommand(parsed, m);
      } else {
        var currency := "";
        if ReadsWallet(parsed.intent) {
          currency := LoadWalletCurrency(m.user.id);
        }
        command := ResolveOther(env, parsed, currency);
      }
    }

    method AnswerCommand(m: Message, command: Command) returns (reply: Reply)
      modifies this
      ensures (Contents(), reply) == Dispatch(old(Contents()), m, command)
    {
      if command.intent.UnknownIntent? || command.intent.OtherIntent? {
        return Refused;
      }
      if KeepsSlots(command.intent) {
        if command.missing != [] {
          var ok := SaveConversationState(m.session, m.user.id, command.intent, command.payload);
          return if ok then MissingInformation(command.missing) else Failed(SessionTaken);
        }
        var id := CreatePendingAction(m, command);
        ClearConversationState(m.session, m.user.id);
        return ConfirmationRequired(id);
      }
      if command.missing != [] {
        return MissingInformation(command.missing);
      }
      if command.intent == CashDeposit || command.intent == CashWithdraw {
        var id := CreatePendingAction(m, command);
        return ConfirmationRequired(id);
      }
      if ClearsOnAnswer(command.intent) {
        ClearConversationState(m.session, m.user.id);
      }
      reply := Answer;
    }

    method HandleMessage(m: Message) returns (reply: Reply)
      modifies this
      ensures (Contents(), reply) == Assistant.HandleMessage(env, old(Contents()), m)
    {
      var parsed := Understand(m);
      var command := ResolveCommand(parsed, m);
      if !Allowed(m.user, command.intent) {
        return Refused;
      }
      reply := AnswerCommand(m, command);
    }

    // ---------- Confirmation ----------

    method LoadPendingAction(id: nat, user: UserId) returns (a: Option<Action>)
      ensures a == if id < |actions| && actions[id].user == user then Some(actions[id]) else None
    {
      a := None;
      if id < |actions| && actions[id].user == user {
        a := Some(actions[id]);
      }
    }

    method ExecuteBeneficiary(id: nat, user: UserId, now: Time)
      requires id < |actions|
      modifies this`beneficiaries, this`actions
      ensures var (rows, row) := WriteBeneficiary(old(beneficiaries), user, old(actions)[id].payload);
        Contents() == Execute(old(Contents()).(beneficiaries := rows), id, now, SavedAs(row))
    {
      var payload := actions[id].payload;
      var account := Lower(Strip(Account(payload)));
      var existing := FindBeneficiary(beneficiaries, user, payload);
      var row;
      if existing.None? {
        row := Beneficiary(user, Get(payload, RecipientName), Get(payload, RecipientPhone), account,
          Get(payload, PartnerName), Get(payload, CountryDestination), true);
        beneficiaries := beneficiaries + [row];
      } else {
        row := beneficiaries[existing.value];
        if Get(payload, RecipientName) != "" {
          row := row.(name := Get(payload, RecipientName));
        }
        if account != "" {
          row := row.(email := account);
        }
        if Get(payload, CountryDestination) != "" {
          row := row.(country := Get(payload, CountryDestination));
        }
        row := row.(active := true);
        beneficiaries := beneficiaries[existing.value := row];
      }
      actions := actions[id := actions[id].(
        status := Executed, confirmedAt := Some(now), executedAt := Some(now), result := SavedAs(row))];
    }

    method ExecuteCash(id: nat, user: UserId, now: Time) returns (reply: Reply)
      requires id < |actions|
      modifies this`cashRequests, this`actions
      ensures match PrepareCash(env, old(Contents()), user, old(actions)[id].intent, old(actions)[id].payload)
        case CashRefused(failure) => reply == Failed(failure) && Contents() == old(Contents())
        case CashAccepted(request) => reply == ActionExecuted && Contents() == Execute(
          old(Contents()).(cashRequests := old(cashRequests) + [request]), id, now, Requested(|old(cashRequests)|))
    {
      var payload := actions[id].payload;
      if user !in wallets {
        return Failed(NoWallet);
      }
      var parsed := AmountOf(env, payload);
      if parsed.None? || parsed.value <= 0.0 {
        return Failed(BadAmount);
      }
      var amount, fee, kind, mobile, provider := parsed.value, 0.0, Deposit, "", "";
      if actions[id].intent == CashWithdraw {
        mobile, provider := Strip(Get(payload, MobileNumber)), Strip(Get(payload, ProviderName));
        if mobile == "" || provider == "" {
          return Failed(IncompleteWithdrawal);
        }
        fee := WithdrawalFee(amount);
        if wallets[user].available < amount + fee {
          return Failed(InsufficientFunds);
        }
        kind := Withdraw;
      }
      var currency := OrElse(Get(payload, Currency), CurrencyOf(wallets[user]));
      var request := |cashRequests|;
      cashRequests := cashRequests
        + [CashRequest(user, kind, amount, fee, amount + fee, currency, mobile, provider, Get(payload, Note))];
      actions := actions[id := actions[id].(
        status := Executed, confirmedAt := Some(now), executedAt := Some(now), result := Requested(request))];
      reply := ActionExecuted;
    }

    method ExecuteTransfer(id: nat, user: User, now: Time, accepted: bool, cut: bool) returns (reply: Reply)
      requires id < |actions| && actions[id].intent == TransferCreate
      modifies this`transfers, this`actions
      ensures (Contents(), reply) == Perform(env, old(Contents()), Decision(user, id, true, now, accepted, cut))
    {
      var a := actions[id];
      if !Allowed(user, TransferCreate) {
        actions := actions[id := a.(status := Cancelled)];
        return Refused;
      }
      var amount := AmountOf(env, a.payload);
      if amount.None? || !ValidTransfer(env, TransferOf(user.id, a.payload, amount.value)) {
        return Failed(InvalidTransfer);
      }
      if !accepted {
        return Failed(TransferRaised);
      }
      var transfer := |transfers|;
      transfers := transfers + [TransferOf(user.id, a.payload, amount.value)];
      if cut {
        return Failed(CutShort);
      }
      actions := actions[id := a.(
        status := Executed, confirmedAt := Some(now), executedAt := Some(now), result := Sent(transfer))];
      reply := ActionExecuted;
    }

    method Confirm(d: Decision) returns (reply: Reply)
      modifies this
      ensures (Contents(), reply) == Assistant.Confirm(env, old(Contents()), d)
    {
      var loaded := LoadPendingAction(d.action, d.user.id);
      if loaded.None? {
        return Failed(NotFound);
      }
      var pending := loaded.value;
      if pending.status != Pending {
        return Failed(NotPending);
      }
      if pending.expiresAt < d.now {
        actions := actions[d.action := pending.(status := Expired)];
        return Failed(HasExpired);
      }
      if !d.confirm {
        actions := actions[d.action := pending.(status := Cancelled, confirmedAt := Some(d.now))];
        return ActionCancelled;
      }
      match pending.intent
      case BeneficiaryAdd =>
        ExecuteBeneficiary(d.action, d.user.id, d.now);
        reply := ActionExecuted;
      case CashDeposit | CashWithdraw =>
        reply := ExecuteCash(d.action, d.user.id, d.now);
      case TransferCreate =>
        reply := ExecuteTransfer(d.action, d.user, d.now, d.accepted, d.cut);
      case _ =>
        actions := actions[d.action := pending.(status := Confirmed, confirmedAt := Some(d.now))];
        reply := ActionConfirmed;
    }

    method Cancel(d: Decision) returns (reply: Reply)
      modifies this
      ensures (Contents(), reply) == Assistant.Confirm(env, old(Contents()), d.(confirm := false))
    {
      reply := Confirm(d.(confirm := false));
    }
  }
}
