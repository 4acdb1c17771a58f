/** Which slot tables the gateway honours. Over all runs of messages the parser can read, a transfer's
    missing list is exact, and a pending action holds every required slot, exactly under conditions
    on the table alone. */
module SlotTables {
  import B = Beneficiaries
  import opened Assistant
  import opened AssistantLaw
  import opened AssistantRuns
  import opened Options
  import opened SlotFilling
  import opened Slots
  import opened Text

  // ---------- What the parser reads ----------

  const TRANSFER_KEYS: set<Name> :=
    {Amount, OriginCurrency, RecipientName, PartnerName, RecipientPhone, CountryDestination, SenderName}

  /** The keys each family of heuristics reads from a message. */
  function ReadKeys(heuristic: Intent): set<Name> {
    match heuristic
    case CashDeposit => {Amount, Currency, Note}
    case CashWithdraw => {Amount, Currency, MobileNumber, ProviderName, Note}
    case CreditCapacity => {Currency}
    case CreditSimulate => {Amount, Currency}
    case KycStatus => {OtherName("kyc_view")}
    case EscrowStatus => {OtherName("order_id")}
    case P2pTradeStatus => {OtherName("trade_id"), OtherName("p2p_view")}
    case ExplainBlockReason | TransferStatus => {OtherName("reference_code")}
    case BeneficiaryAdd | TransferCreate | UnknownIntent => TRANSFER_KEYS
    case OnboardingScenario => {OtherName("scenario")}
    case OnboardingGuide => {OtherName("guide_topic")}
    case _ => {}
  }

  /** What makes the heuristics see a transfer. */
  const TELLTALES: set<Name> := {Amount, RecipientName, PartnerName, RecipientPhone}

  /** A reading that the heuristics can give; the intent may come from the synonyms or the model. */
  ghost predicate Readable(reading: Reading) {
    && !reading.heuristic.OtherIntent?
    && FilledKeys(reading.entities) <= ReadKeys(reading.heuristic)
    && (reading.heuristic == TransferCreate ==> FilledKeys(reading.entities) * TELLTALES != {})
    && (reading.heuristic == UnknownIntent ==> FilledKeys(reading.entities) * TELLTALES == {})
  }

  ghost predicate ReadableRun(es: seq<Event>) {
    forall i :: 0 <= i < |es| && es[i].Said? ==> Readable(es[i].m.reading)
  }

  /** The state a run of the gateway ends in. The slot table is read anew for each message, so it may
      change during the run. */
  function Reached(env: Env, es: seq<Event>): State {
    GatewayRun(env, es).states[|es|]
  }

  lemma ReachedStep(env: Env, es: seq<Event>)
    requires es != []
    ensures Reached(env, es) == Step(env, Reached(env, es[..|es| - 1]), es[|es| - 1])
  {
  }

  /** What the parser keeps of a reading: all of it for the four intents that create actions; for the
      others what their own heuristics read, but for the reference of a question about a blocked transfer,
      which is dropped. */
  lemma ReadingIsProjected(reading: Reading, metadata: Metadata, n: Name)
    ensures var parsed := ParseMessage(reading, metadata);
      && parsed.intent == IntentOf(reading)
      && Get(parsed.entities, n) == (
           if parsed.intent in {TransferCreate, BeneficiaryAdd, CashDeposit, CashWithdraw} then Get(reading.entities, n)
           else if parsed.intent in {UnknownIntent, ExplainBlockReason} then ""
           else if n in ReadKeys(parsed.intent) then Get(reading.entities, n)
           else "")
  {
  }

  // ---------- What a conversation saves ----------

  /** The keys a saved conversation may fill: what its payload stores, and for a transfer how its
      beneficiary was recognised. Nothing ever fills the account of a new beneficiary. */
  function SavedKeys(intent: Intent): set<Name> {
    match intent
    case TransferCreate => StoredKeys(TransferCreate) + {MatchSource, MatchName}
    case BeneficiaryAdd => StoredKeys(BeneficiaryAdd) - {AccountRef}
    case _ => {}
  }

  ghost predicate SavesOnly(s: State) {
    forall id :: id in s.conversations ==>
      FilledKeys(s.conversations[id].slots) <= SavedKeys(s.conversations[id].intent)
  }

  lemma UnderstoodKeys(s: State, m: Message)
    requires SavesOnly(s) && Readable(m.reading) && KeepsSlots(Understood(s, m).intent)
    ensures FilledKeys(Understood(s, m).entities)
      <= ReadKeys(m.reading.heuristic) + SavedKeys(Understood(s, m).intent)
  {
    match LoadConversation(s, m.session, m.user.id)
    case Some(c) => MergeFills(c.slots, Spoken(m));
    case None =>
  }

  lemma TransferFills(fields: Fields, outcome: B.Outcome)
    ensures FilledKeys(B.Resolved(TransferPayload(fields), outcome)) <= SavedKeys(TransferCreate)
  {
    var payload := TransferPayload(fields);
    forall n | n in FilledKeys(B.Resolved(payload, outcome)) ensures n in SavedKeys(TransferCreate) {
      if n != MatchSource && n != MatchName {
        B.OnlyEmptyFieldsChange(payload, outcome, n);
      }
    }
  }

  lemma NoAccountIsRead(heuristic: Intent, entities: Fields)
    requires FilledKeys(entities) <= ReadKeys(heuristic) + SavedKeys(BeneficiaryAdd)
    ensures AccountRef !in FilledKeys(entities) && RecipientEmail !in FilledKeys(entities)
  {
  }

  lemma BeneficiaryFills(entities: Fields)
    requires AccountRef !in FilledKeys(entities) && RecipientEmail !in FilledKeys(entities)
    ensures FilledKeys(BeneficiaryPayload(entities)) <= SavedKeys(BeneficiaryAdd)
  {
    assert Account(entities) == "";
  }

  lemma CommandSaves(env: Env, s: State, m: Message)
    requires SavesOnly(s) && Readable(m.reading) && KeepsSlots(CommandOf(env, s, m).intent)
    ensures FilledKeys(CommandOf(env, s, m).payload) <= SavedKeys(CommandOf(env, s, m).intent)
  {
    var parsed := Understood(s, m);
    if parsed.intent == TransferCreate {
      TransferFills(parsed.entities, Search(env, parsed, m.rows));
    } else {
      UnderstoodKeys(s, m);
      NoAccountIsRead(m.reading.heuristic, parsed.entities);
      BeneficiaryFills(parsed.entities);
    }
  }

  lemma DispatchSaves(s: State, m: Message, command: Command)
    requires SavesOnly(s)
    requires KeepsSlots(command.intent) ==> FilledKeys(command.payload) <= SavedKeys(command.intent)
    ensures SavesOnly(Dispatch(s, m, command).0)
  {
  }

  lemma MessageSaves(env: Env, s: State, m: Message)
    requires SavesOnly(s) && Readable(m.reading)
    ensures SavesOnly(HandleMessage(env, s, m).0)
  {
    if KeepsSlots(CommandOf(env, s, m).intent) {
      CommandSaves(env, s, m);
    }
    DispatchSaves(Prepared(s, m), m, CommandOf(env, s, m));
  }

  /** In every run of readable messages, conversations only save such keys. */
  lemma {:induction false} RunSavesOnly(env: Env, es: seq<Event>)
    requires ReadableRun(es)
    ensures SavesOnly(Reached(env, es))
  {
    if es != [] {
      var n := |es| - 1;
      RunSavesOnly(env, es[..n]);
      ReachedStep(env, es);
      match es[n]
      case Said(m) => MessageSaves(env, Reached(env, es[..n]), m);
      case Decided(d) => ConfirmSettles(env, Reached(env, es[..n]), d);
      case WalletsChanged(_) =>
    }
  }

  // ---------- A dialogue that fills all it can ----------

  const OWNER: User := User(0, Active, false, Verified)

  /** A text that a message may give for each key. */
  function Sample(n: Name): (text: string)
    ensures text != ""
  {
    match n
    case Amount => "100"
    case Currency | OriginCurrency => "EUR"
    case RecipientPhone | MobileNumber => "+25761234567"
    case PartnerName | ProviderName => "Lumicash"
    case CountryDestination => "Burundi"
    case OtherName(_) => "status"
    case _ => "Jean"
  }

  function Sampled(names: set<Name>): (fields: Fields)
    ensures FilledKeys(fields) == names
  {
    map n | n in names :: Sample(n)
  }

  const KNOWN: B.Row := B.Row("Jean", "+25761234567", "Lumicash", "j@x.bi", "Burundi", B.SavedBeneficiary)

  lemma StripKeeps(text: string)
    requires text != "" && !IsSpace(text[0]) && !IsSpace(text[|text| - 1])
    ensures Strip(text) == text
  {
  }

  lemma SamplesAreStripped()
    ensures Strip("Jean") == "Jean" && Strip("+25761234567") == "+25761234567"
    ensures Strip("Lumicash") == "Lumicash" && Strip("j@x.bi") == "j@x.bi" && Strip("Burundi") == "Burundi"
  {
    StripKeeps("Jean");
    StripKeeps("+25761234567");
    StripKeeps("Lumicash");
    StripKeeps("j@x.bi");
    StripKeeps("Burundi");
  }

  /** `row` has the number and the partner of `fields`, a name and an account. */
  ghost predicate Matches(row: B.Row, fields: Fields) {
    && B.Phone(fields) == Strip(row.phone) != "" && B.Partner(fields) == Strip(row.partner)
    && Strip(row.name) != "" && Strip(row.account) != ""
  }

  lemma KnownMatches()
    ensures Matches(KNOWN, TransferPayload(Sampled(TRANSFER_KEYS)))
  {
    var fields := TransferPayload(Sampled(TRANSFER_KEYS));
    assert Get(fields, RecipientPhone) == KNOWN.phone && Get(fields, PartnerName) == KNOWN.partner;
    SamplesAreStripped();
  }

  lemma MatchIsFound(ratio: B.Ratio, fields: Fields, row: B.Row)
    requires Matches(row, fields)
    ensures B.SearchWith(ratio)(fields, [row]) == B.Selected(B.ToCandidate(row))
  {
    var items := B.Candidates([row]);
    B.OneMoreKey([], B.RowKey(row));
    assert B.Keys([row]) == [] + [B.RowKey(row)];
    assert items == [B.ToCandidate(row)];
    B.PhoneChooses(ratio, fields, items, 0);
  }

  lemma MatchFillsKey(entities: Fields, c: B.Candidate, n: Name)
    requires n in SavedKeys(TransferCreate) && (n in TRANSFER_KEYS ==> Get(entities, n) != "")
    requires c.name != "" && c.account != ""
    ensures Get(B.Completed(TransferPayload(entities), c), n) != ""
  {
  }

  lemma MatchFills(entities: Fields, c: B.Candidate)
    requires FilledKeys(entities) == TRANSFER_KEYS && c.name != "" && c.account != ""
    ensures FilledKeys(B.Completed(TransferPayload(entities), c)) == SavedKeys(TransferCreate)
  {
    TransferFills(entities, B.Selected(c));
    forall n | n in SavedKeys(TransferCreate) ensures n in FilledKeys(B.Completed(TransferPayload(entities), c)) {
      assert n in TRANSFER_KEYS ==> n in FilledKeys(entities);
      MatchFillsKey(entities, c, n);
    }
  }

  /** A first message that says all a transfer or a beneficiary can be told, while the slot table
      asks for something else. */
  function FirstTurn(intent: Intent, entities: Fields, row: B.Row): Message {
    Message(OWNER, Some(0), Reading(intent, entities, None, None),
      map[intent := [Slot(BeneficiarySelection, true)]], [row], 0)
  }

  lemma SelectionIsMissing(fields: Fields)
    requires Get(fields, BeneficiarySelection) == ""
    ensures Missing([Slot(BeneficiarySelection, true)], fields) == [BeneficiarySelection]
  {
    assert [Slot(BeneficiarySelection, true)][..0] == [];
  }

  lemma FirstTurnIsUnderstood(intent: Intent, entities: Fields, row: B.Row)
    requires KeepsSlots(intent) && Get(entities, BeneficiarySelection) == ""
    ensures Understood(EMPTY, FirstTurn(intent, entities, row)) == Parsed(intent, entities, [BeneficiarySelection])
  {
    SelectionIsMissing(entities);
  }

  lemma SelectedCommand(parsed: Parsed, c: B.Candidate, payload: Fields)
    requires payload == B.Completed(TransferPayload(parsed.entities), c) && Get(payload, BeneficiarySelection) == ""
    ensures var command := TransferCommand(parsed, [Slot(BeneficiarySelection, true)], B.Selected(c));
      command.missing == [BeneficiarySelection] && command.payload == payload
  {
    SelectionIsMissing(payload);
  }

  lemma MatchedCommand(entities: Fields, c: B.Candidate)
    requires FilledKeys(entities) == TRANSFER_KEYS && c.name != "" && c.account != ""
    ensures var command := TransferCommand(
        Parsed(TransferCreate, entities, [BeneficiarySelection]), [Slot(BeneficiarySelection, true)], B.Selected(c));
      command.missing == [BeneficiarySelection] && FilledKeys(command.payload) == SavedKeys(TransferCreate)
  {
    MatchFills(entities, c);
    assert BeneficiarySelection !in FilledKeys(B.Completed(TransferPayload(entities), c));
    SelectedCommand(Parsed(TransferCreate, entities, [BeneficiarySelection]), c,
      B.Completed(TransferPayload(entities), c));
  }

  lemma FirstTransferCommand(env: Env, ratio: B.Ratio, entities: Fields, row: B.Row)
    requires env.search == B.SearchWith(ratio)
    requires Get(entities, BeneficiarySelection) == "" && Matches(row, TransferPayload(entities))
    ensures CommandOf(env, EMPTY, FirstTurn(TransferCreate, entities, row)) == TransferCommand(
        Parsed(TransferCreate, entities, [BeneficiarySelection]), [Slot(BeneficiarySelection, true)],
        B.Selected(B.ToCandidate(row)))
  {
    FirstTurnIsUnderstood(TransferCreate, entities, row);
    MatchIsFound(ratio, TransferPayload(entities), row);
  }

  lemma FirstTransferTurn(env: Env, ratio: B.Ratio, entities: Fields, row: B.Row)
    requires env.search == B.SearchWith(ratio)
    requires FilledKeys(entities) == TRANSFER_KEYS && Matches(row, TransferPayload(entities))
    ensures var command := CommandOf(env, EMPTY, FirstTurn(TransferCreate, entities, row));
      && command.intent == TransferCreate && command.missing == [BeneficiarySelection]
      && FilledKeys(command.payload) == SavedKeys(TransferCreate)
  {
    assert BeneficiarySelection !in FilledKeys(entities);
    FirstTransferCommand(env, ratio, entities, row);
    MatchedCommand(entities, B.ToCandidate(row));
  }

  lemma BeneficiaryPayloadFills(entities: Fields)
    requires FilledKeys(entities) == TRANSFER_KEYS
    ensures FilledKeys(BeneficiaryPayload(entities)) == SavedKeys(BeneficiaryAdd)
  {
    assert AccountRef !in FilledKeys(entities) && RecipientEmail !in FilledKeys(entities);
    forall n | n in SavedKeys(BeneficiaryAdd) ensures n in FilledKeys(BeneficiaryPayload(entities)) {
      assert n in FilledKeys(entities);
    }
  }

  lemma FirstBeneficiaryTurn(env: Env, entities: Fields, row: B.Row)
    requires FilledKeys(entities) == TRANSFER_KEYS
    ensures var command := CommandOf(env, EMPTY, FirstTurn(BeneficiaryAdd, entities, row));
      && command.intent == BeneficiaryAdd && command.missing == [BeneficiarySelection]
      && FilledKeys(command.payload) == SavedKeys(BeneficiaryAdd)
  {
    assert BeneficiarySelection !in FilledKeys(entities);
    FirstTurnIsUnderstood(BeneficiaryAdd, entities, row);
    BeneficiaryPayloadFills(entities);
  }

  lemma FirstMessageIsSaved(env: Env, m: Message)
    requires m.user == OWNER && m.session == Some(0)
    requires KeepsSlots(CommandOf(env, EMPTY, m).intent) && CommandOf(env, EMPTY, m).missing != []
    ensures var command := CommandOf(env, EMPTY, m);
      LoadConversation(Reached(env, [Said(m)]), Some(0), 0)
      == Some(Conversation(0, command.intent, command.payload, true))
  {
    ReachedStep(env, [Said(m)]);
    assert Reached(env, [Said(m)][..0]) == EMPTY;
    DispatchIsSaved(Prepared(EMPTY, m), m, CommandOf(env, EMPTY, m));
  }

  lemma DispatchIsSaved(s: State, m: Message, command: Command)
    requires s.conversations == map[] && m.user == OWNER && m.session == Some(0)
    requires KeepsSlots(command.intent) && command.missing != []
    ensures Allowed(m.user, command.intent)
    ensures LoadConversation(Dispatch(s, m, command).0, Some(0), 0)
      == Some(Conversation(0, command.intent, command.payload, true))
  {
  }

  lemma FirstTurnIsReadable(intent: Intent)
    requires KeepsSlots(intent)
    ensures ReadableRun([Said(FirstTurn(intent, Sampled(TRANSFER_KEYS), KNOWN))])
  {
    assert Amount in TRANSFER_KEYS * TELLTALES;
  }

  lemma FirstTurnOf(env: Env, ratio: B.Ratio, intent: Intent, entities: Fields, row: B.Row)
    requires env.search == B.SearchWith(ratio) && KeepsSlots(intent)
    requires FilledKeys(entities) == TRANSFER_KEYS && Matches(row, TransferPayload(entities))
    ensures var command := CommandOf(env, EMPTY, FirstTurn(intent, entities, row));
      && command.intent == intent && command.missing == [BeneficiarySelection]
      && FilledKeys(command.payload) == SavedKeys(intent)
  {
    if intent == TransferCreate {
      FirstTransferTurn(env, ratio, entities, row);
    } else {
      FirstBeneficiaryTurn(env, entities, row);
    }
  }

  /** A one-message run that saves all a conversation on `intent` can save. */
  lemma FirstTurnSaves(env: Env, ratio: B.Ratio, intent: Intent) returns (es: seq<Event>, c: Conversation)
    requires env.search == B.SearchWith(ratio) && KeepsSlots(intent)
    ensures ReadableRun(es) && LoadConversation(Reached(env, es), Some(0), 0) == Some(c)
    ensures c.active && c.intent == intent && FilledKeys(c.slots) == SavedKeys(intent)
  {
    var m := FirstTurn(intent, Sampled(TRANSFER_KEYS), KNOWN);
    KnownMatches();
    FirstTurnOf(env, ratio, intent, Sampled(TRANSFER_KEYS), KNOWN);
    FirstTurnIsReadable(intent);
    FirstMessageIsSaved(env, m);
    es, c := [Said(m)], Conversation(0, intent, CommandOf(env, EMPTY, m).payload, true);
  }

  /** A later message whose heuristics see `heuristic` and whose intent is `intent`. */
  function Following(intent: Intent, heuristic: Intent, metadata: Metadata): Message {
    Message(OWNER, Some(0), Reading(heuristic, Sampled(ReadKeys(heuristic)), None, Some(intent)), metadata, [], 0)
  }

  /** Some readable message says all the keys of a family at once. */
  lemma Voice(heuristic: Intent) returns (voice: Intent)
    ensures ReadKeys(voice) == ReadKeys(heuristic)
    ensures forall intent, metadata :: Readable(Following(intent, voice, metadata).reading)
  {
    voice := if heuristic == UnknownIntent then TransferCreate
      else if heuristic.OtherIntent? then WalletBalance else heuristic;
    assert Amount in TRANSFER_KEYS * TELLTALES;
  }

  lemma FollowingIsUnderstood(s: State, c: Conversation, heuristic: Intent, metadata: Metadata)
    requires LoadConversation(s, Some(0), 0) == Some(c) && c.active && KeepsSlots(c.intent)
    ensures var m := Following(c.intent, heuristic, metadata);
      var parsed := Understood(s, m);
      && parsed.intent == c.intent && parsed.missing == Missing(SlotsOf(metadata, c.intent), parsed.entities)
      && FilledKeys(parsed.entities) == FilledKeys(c.slots) + ReadKeys(heuristic)
  {
    MergeFills(c.slots, Sampled(ReadKeys(heuristic)));
  }

  // ---------- Exactness ----------

  /** A key that makes the missing list of a transfer inexact when it is required: the message or the
      conversation may hold it while the payload does not, or it is the selection itself. */
  ghost predicate Disturbs(n: Name) {
    n in {BeneficiarySelection, MatchSource, MatchName} || exists heuristic :: n in ReadKeys(heuristic)
  }

  ghost predicate AlwaysExact(env: Env, metadata: Metadata) {
    forall es: seq<Event>, m: Message ::
      (ReadableRun(es) && Readable(m.reading) && m.metadata == metadata
       && Understood(Reached(env, es), m).intent == TransferCreate)
      ==> MissingExactly(env, Reached(env, es), m)
  }

  ghost predicate ExactTable(metadata: Metadata) {
    forall n :: n in Required(metadata, TransferCreate) && Disturbs(n) ==> n in StoredKeys(TransferCreate)
  }

  lemma ExactTableLists(metadata: Metadata, parsed: Parsed, heuristic: Intent, outcome: B.Outcome)
    requires ExactTable(metadata) && parsed.missing == Missing(SlotsOf(metadata, TransferCreate), parsed.entities)
    requires FilledKeys(parsed.entities) <= ReadKeys(heuristic) + SavedKeys(TransferCreate)
    ensures var slots := SlotsOf(metadata, TransferCreate);
      ListsMissing(TransferCommand(parsed, slots, outcome), slots, outcome.NeedsSelection?)
  {
    var slots := SlotsOf(metadata, TransferCreate);
    assert RecipientEmail !in FilledKeys(parsed.entities);
    forall n | n in RequiredNames(slots) && n !in StoredKeys(TransferCreate) ensures Get(parsed.entities, n) == "" {
      assert !Disturbs(n) && n !in FilledKeys(parsed.entities);
    }
    assert Disturbs(BeneficiarySelection);
    TransferListsMissingWhen(parsed, slots, outcome);
  }

  lemma ExactTableSuffices(env: Env, es: seq<Event>, m: Message)
    requires ReadableRun(es) && Readable(m.reading) && ExactTable(m.metadata)
    requires Understood(Reached(env, es), m).intent == TransferCreate
    ensures MissingExactly(env, Reached(env, es), m)
  {
    var s := Reached(env, es);
    RunSavesOnly(env, es);
    UnderstoodKeys(s, m);
    UnderstoodMissing(s, m);
    ExactTableLists(m.metadata, Understood(s, m), m.reading.heuristic, Search(env, Understood(s, m), m.rows));
  }

  lemma UnstoredIsInexact(parsed: Parsed, slots: seq<Slot>, n: Name)
    requires parsed.missing == Missing(slots, parsed.entities)
    requires n in RequiredNames(slots) && n !in StoredKeys(TransferCreate) && n in FilledKeys(parsed.entities)
    ensures !ListsMissing(TransferCommand(parsed, slots, B.Unchanged), slots, false)
  {
    MissingIsExact(slots, parsed.entities);
    MissingIsExact(slots, TransferPayload(parsed.entities));
    assert n in Missing(slots, TransferPayload(parsed.entities)) && n !in Missing(slots, parsed.entities);
  }

  lemma SelectionIsInexact(parsed: Parsed, slots: seq<Slot>, outcome: B.Outcome)
    requires BeneficiarySelection in RequiredNames(slots) && outcome.NeedsSelection?
    ensures !ListsMissing(TransferCommand(parsed, slots, outcome), slots, true)
  {
    var payload := TransferPayload(parsed.entities);
    MissingIsExact(slots, payload);
    assert BeneficiarySelection in Missing(slots, payload);
  }

  /** Two saved beneficiaries with the number of the message. */
  lemma TwinsAreAmbiguous(ratio: B.Ratio, fields: Fields, row: B.Row)
    requires Matches(row, fields)
    ensures B.SearchWith(ratio)(fields, [row, row.(account := "")]).NeedsSelection?
  {
    var twin := row.(account := "");
    var items := B.Candidates([row, twin]);
    assert |B.RowKey(row).account| > 0 && |B.RowKey(twin).account| == 0;
    assert B.Keys([row, twin]) == [B.RowKey(row)] + [B.RowKey(twin)];
    B.OneMoreKey([], B.RowKey(row));
    B.OneMoreKey([B.RowKey(row)], B.RowKey(twin));
    assert [] + [B.RowKey(row)] == [B.RowKey(row)];
    assert items == [B.ToCandidate(row), B.ToCandidate(twin)];
    B.PhoneIsAmbiguous(ratio, fields, items, 0, 1);
  }

  /** A first message that two saved beneficiaries match. */
  function AmbiguousMessage(metadata: Metadata): Message {
    Message(OWNER, None, Reading(TransferCreate, Sampled(TRANSFER_KEYS), None, None), metadata,
      [KNOWN, KNOWN.(account := "")], 0)
  }

  lemma AmbiguousIsInexact(env: Env, ratio: B.Ratio, metadata: Metadata)
    requires env.search == B.SearchWith(ratio) && BeneficiarySelection in Required(metadata, TransferCreate)
    ensures var m := AmbiguousMessage(metadata);
      Readable(m.reading) && Understood(EMPTY, m).intent == TransferCreate && !MissingExactly(env, EMPTY, m)
  {
    var m := AmbiguousMessage(metadata);
    var parsed := Understood(EMPTY, m);
    assert Amount in FilledKeys(m.reading.entities) * TELLTALES;
    assert parsed.entities == Sampled(TRANSFER_KEYS);
    KnownMatches();
    TwinsAreAmbiguous(ratio, TransferPayload(Sampled(TRANSFER_KEYS)), KNOWN);
    SelectionIsInexact(parsed, SlotsOf(metadata, TransferCreate), Search(env, parsed, m.rows));
  }

  lemma Inexact(env: Env, ratio: B.Ratio, metadata: Metadata, n: Name) returns (es: seq<Event>, m: Message)
    requires env.search == B.SearchWith(ratio)
    requires n in Required(metadata, TransferCreate) && n !in StoredKeys(TransferCreate) && Disturbs(n)
    ensures ReadableRun(es) && Readable(m.reading) && m.metadata == metadata
    ensures Understood(Reached(env, es), m).intent == TransferCreate && !MissingExactly(env, Reached(env, es), m)
  {
    if n == BeneficiarySelection {
      es, m := [], AmbiguousMessage(metadata);
      AmbiguousIsInexact(env, ratio, metadata);
    } else {
      var heuristic := WalletBalance;
      if n !in {MatchSource, MatchName} {
        heuristic :| n in ReadKeys(heuristic);
      }
      var voice := Voice(heuristic);
      var c;
      es, c := FirstTurnSaves(env, ratio, TransferCreate);
      m := Following(TransferCreate, voice, metadata);
      FollowingIsUnderstood(Reached(env, es), c, voice, metadata);
      SearchFindsNothing(env, ratio);
      UnstoredIsInexact(Understood(Reached(env, es), m), SlotsOf(metadata, TransferCreate), n);
    }
  }

  /** The missing list of a transfer is exact for every message of every run if and only if the slot
      table requires no key that the payload does not store but that a message can say or a
      conversation can save, nor the selection itself. */
  lemma ExactnessCondition(env: Env, ratio: B.Ratio, metadata: Metadata)
    requires env.search == B.SearchWith(ratio)
    ensures AlwaysExact(env, metadata) <==> ExactTable(metadata)
  {
    if ExactTable(metadata) {
      forall es: seq<Event>, m: Message |
        ReadableRun(es) && Readable(m.reading) && m.metadata == metadata
        && Understood(Reached(env, es), m).intent == TransferCreate
        ensures MissingExactly(env, Reached(env, es), m)
      {
        ExactTableSuffices(env, es, m);
      }
    } else {
      var n :| n in Required(metadata, TransferCreate) && Disturbs(n) && n !in StoredKeys(TransferCreate);
      var es, m := Inexact(env, ratio, metadata, n);
    }
  }

  // ---------- Completeness ----------

  ghost predicate AlwaysComplete(env: Env, metadata: Metadata, intent: Intent) {
    forall es: seq<Event>, m: Message ::
      (ReadableRun(es) && Readable(m.reading) && m.metadata == metadata
       && Creates(env, Reached(env, es), m) && CommandOf(env, Reached(env, es), m).intent == intent)
      ==> HoldsAllRequired(metadata, NewAction(m, CommandOf(env, Reached(env, es), m)))
  }

  /** Required, but not sure to be in the payload of a pending action. */
  function Unsure(metadata: Metadata, intent: Intent): set<Name> {
    Required(metadata, intent) - SureKeys(intent)
  }

  /** Some message can say all the required keys that the payload does not store, those apart that
      the conversation of a transfer can have saved. */
  ghost predicate SaidTogether(metadata: Metadata, intent: Intent) {
    exists heuristic :: Unsure(metadata, intent) <= ReadKeys(heuristic) + SavedKeys(intent)
  }

  /** The slot table lets an action be created that lacks a required slot. */
  ghost predicate LosesSlots(metadata: Metadata, intent: Intent) {
    Unsure(metadata, intent) != {} && match intent
    case TransferCreate => SaidTogether(metadata, intent)
    case BeneficiaryAdd => SaidTogether(metadata, intent) && AccountRef !in Required(metadata, intent)
    case _ => true
  }

  lemma SaidTransfer(metadata: Metadata, entities: Fields, heuristic: Intent, n: Name)
    requires Missing(SlotsOf(metadata, TransferCreate), entities) == []
    requires FilledKeys(entities) <= ReadKeys(heuristic) + SavedKeys(TransferCreate)
    requires n in Unsure(metadata, TransferCreate)
    ensures LosesSlots(metadata, TransferCreate)
  {
    MissingIsExact(SlotsOf(metadata, TransferCreate), entities);
    forall k | k in Unsure(metadata, TransferCreate) ensures k in ReadKeys(heuristic) + SavedKeys(TransferCreate) {
      assert k in FilledKeys(entities);
    }
  }

  /** What an action created without some required slot reveals of the slot table. */
  lemma LostTransferSlot(env: Env, es: seq<Event>, m: Message, n: Name)
    requires ReadableRun(es) && Readable(m.reading)
    requires Creates(env, Reached(env, es), m) && CommandOf(env, Reached(env, es), m).intent == TransferCreate
    requires n in Required(m.metadata, TransferCreate) && Get(CommandOf(env, Reached(env, es), m).payload, n) == ""
    ensures LosesSlots(m.metadata, TransferCreate)
  {
    var s := Reached(env, es);
    RunSavesOnly(env, es);
    UnderstoodKeys(s, m);
    UnderstoodMissing(s, m);
    PendingIsComplete(env, s, m);
    if Search(env, Understood(s, m), m.rows).Unchanged? {
      SaidTransfer(m.metadata, Understood(s, m).entities, m.reading.heuristic, n);
    } else {
      MissingIsExact(SlotsOf(m.metadata, TransferCreate), CommandOf(env, s, m).payload);
      assert false;
    }
  }

  lemma SaidBeneficiary(metadata: Metadata, entities: Fields, heuristic: Intent, n: Name)
    requires Missing(SlotsOf(metadata, BeneficiaryAdd), entities) == []
    requires FilledKeys(entities) <= ReadKeys(heuristic) + SavedKeys(BeneficiaryAdd)
    requires n in Unsure(metadata, BeneficiaryAdd)
    ensures LosesSlots(metadata, BeneficiaryAdd)
  {
    MissingIsExact(SlotsOf(metadata, BeneficiaryAdd), entities);
    forall k | k in Required(metadata, BeneficiaryAdd) ensures k in ReadKeys(heuristic) + SavedKeys(BeneficiaryAdd) {
      assert k in FilledKeys(entities);
    }
  }

  lemma LostBeneficiarySlot(env: Env, es: seq<Event>, m: Message, n: Name)
    requires ReadableRun(es) && Readable(m.reading)
    requires Creates(env, Reached(env, es), m) && CommandOf(env, Reached(env, es), m).intent == BeneficiaryAdd
    requires n in Required(m.metadata, BeneficiaryAdd) && Get(CommandOf(env, Reached(env, es), m).payload, n) == ""
    ensures LosesSlots(m.metadata, BeneficiaryAdd)
  {
    var s := Reached(env, es);
    RunSavesOnly(env, es);
    UnderstoodKeys(s, m);
    UnderstoodMissing(s, m);
    PendingIsComplete(env, s, m);
    SaidBeneficiary(m.metadata, Understood(s, m).entities, m.reading.heuristic, n);
  }

  lemma LostCashSlot(env: Env, es: seq<Event>, m: Message, n: Name)
    requires CommandOf(env, Reached(env, es), m).intent in {CashDeposit, CashWithdraw}
    requires Creates(env, Reached(env, es), m)
    requires n in Required(m.metadata, CommandOf(env, Reached(env, es), m).intent)
    requires Get(CommandOf(env, Reached(env, es), m).payload, n) == ""
    ensures LosesSlots(m.metadata, CommandOf(env, Reached(env, es), m).intent)
  {
    PendingIsComplete(env, Reached(env, es), m);
    assert n in Unsure(m.metadata, CommandOf(env, Reached(env, es), m).intent);
  }

  lemma PayloadLacks(entities: Fields, intent: Intent, n: Name)
    requires KeepsSlots(intent) && n !in StoredKeys(intent)
    ensures intent == TransferCreate ==> Get(TransferPayload(entities), n) == ""
    ensures intent == BeneficiaryAdd ==> Get(BeneficiaryPayload(entities), n) == ""
  {
  }

  lemma FollowingCommand(env: Env, s: State, c: Conversation, heuristic: Intent, metadata: Metadata)
    requires FindsNothing(env) && LoadConversation(s, Some(0), 0) == Some(c) && c.active && KeepsSlots(c.intent)
    ensures var m := Following(c.intent, heuristic, metadata);
      var command, parsed := CommandOf(env, s, m), Understood(s, m);
      && command.intent == c.intent && command.missing == parsed.missing
      && (c.intent == TransferCreate ==> command.payload == TransferPayload(parsed.entities))
      && (c.intent == BeneficiaryAdd ==> command.payload == BeneficiaryPayload(parsed.entities))
  {
    FollowingIsUnderstood(s, c, heuristic, metadata);
  }

  lemma FollowingMissesNothing(env: Env, s: State, c: Conversation, heuristic: Intent, metadata: Metadata)
    requires FindsNothing(env) && LoadConversation(s, Some(0), 0) == Some(c) && c.active && KeepsSlots(c.intent)
    requires FilledKeys(c.slots) == SavedKeys(c.intent)
    requires Required(metadata, c.intent) <= ReadKeys(heuristic) + SavedKeys(c.intent)
    ensures CommandOf(env, s, Following(c.intent, heuristic, metadata)).missing == []
  {
    var entities := Understood(s, Following(c.intent, heuristic, metadata)).entities;
    FollowingIsUnderstood(s, c, heuristic, metadata);
    FollowingCommand(env, s, c, heuristic, metadata);
    forall k | k in Required(metadata, c.intent) ensures Get(entities, k) != "" {
      assert k in FilledKeys(entities);
    }
    NothingMissing(SlotsOf(metadata, c.intent), entities);
  }

  lemma FollowingLacks(env: Env, s: State, c: Conversation, heuristic: Intent, metadata: Metadata, n: Name)
    requires FindsNothing(env) && LoadConversation(s, Some(0), 0) == Some(c) && c.active && KeepsSlots(c.intent)
    requires n in Unsure(metadata, c.intent)
    ensures Get(CommandOf(env, s, Following(c.intent, heuristic, metadata)).payload, n) == ""
  {
    var m := Following(c.intent, heuristic, metadata);
    FollowingCommand(env, s, c, heuristic, metadata);
    PayloadLacks(Understood(s, m).entities, c.intent, n);
  }

  /** A dialogue that ends in an action without the required slot `n`. */
  lemma FollowingLoses(env: Env, s: State, c: Conversation, heuristic: Intent, metadata: Metadata, n: Name)
    requires FindsNothing(env) && LoadConversation(s, Some(0), 0) == Some(c) && c.active && KeepsSlots(c.intent)
    requires FilledKeys(c.slots) == SavedKeys(c.intent)
    requires Required(metadata, c.intent) <= ReadKeys(heuristic) + SavedKeys(c.intent)
    requires n in Unsure(metadata, c.intent)
    ensures var m := Following(c.intent, heuristic, metadata);
      && Creates(env, s, m) && CommandOf(env, s, m).intent == c.intent
      && !HoldsAllRequired(metadata, NewAction(m, CommandOf(env, s, m)))
  {
    var m := Following(c.intent, heuristic, metadata);
    FollowingCommand(env, s, c, heuristic, metadata);
    FollowingMissesNothing(env, s, c, heuristic, metadata);
    FollowingLacks(env, s, c, heuristic, metadata, n);
    PendingIsComplete(env, s, m);
  }

  lemma DialogueLoses(env: Env, ratio: B.Ratio, metadata: Metadata, intent: Intent) returns (es: seq<Event>, m: Message)
    requires env.search == B.SearchWith(ratio) && KeepsSlots(intent) && LosesSlots(metadata, intent)
    ensures ReadableRun(es) && Readable(m.reading) && m.metadata == metadata
    ensures Creates(env, Reached(env, es), m) && CommandOf(env, Reached(env, es), m).intent == intent
    ensures !HoldsAllRequired(metadata, NewAction(m, CommandOf(env, Reached(env, es), m)))
  {
    var n :| n in Unsure(metadata, intent);
    var heuristic :| Unsure(metadata, intent) <= ReadKeys(heuristic) + SavedKeys(intent);
    var voice := Voice(heuristic);
    var c;
    es, c := FirstTurnSaves(env, ratio, intent);
    m := Following(intent, voice, metadata);
    SearchFindsNothing(env, ratio);
    FollowingLoses(env, Reached(env, es), c, voice, metadata, n);
  }

  /** A first message about a cash request. */
  function CashMessage(intent: Intent, entities: Fields, metadata: Metadata): Message {
    Message(OWNER, None, Reading(intent, entities, None, None), metadata, [], 0)
  }

  lemma CashMessageCommand(env: Env, metadata: Metadata, intent: Intent, entities: Fields)
    requires intent in {CashDeposit, CashWithdraw}
    requires FilledKeys(entities) == CashRequired(intent) && Get(entities, Amount) != "0"
    ensures CommandOf(env, EMPTY, CashMessage(intent, entities, metadata))
      == Command(intent, CashPayload(entities, "EUR"), [], [], false)
  {
    forall n | n in CashRequired(intent) ensures Get(entities, n) != "" {
      assert n in FilledKeys(entities);
    }
  }

  lemma CashPayloadLacks(intent: Intent, entities: Fields, n: Name)
    requires intent in {CashDeposit, CashWithdraw} && n !in SureKeys(intent)
    requires FilledKeys(entities) == CashRequired(intent)
    ensures Get(CashPayload(entities, "EUR"), n) == ""
  {
    assert n !in FilledKeys(entities);
  }

  lemma CashLoses(env: Env, metadata: Metadata, intent: Intent)
    requires intent in {CashDeposit, CashWithdraw} && LosesSlots(metadata, intent)
    ensures var m := CashMessage(intent, Sampled(CashRequired(intent)), metadata);
      && Readable(m.reading) && Creates(env, EMPTY, m) && CommandOf(env, EMPTY, m).intent == intent
      && !HoldsAllRequired(metadata, NewAction(m, CommandOf(env, EMPTY, m)))
  {
    var entities := Sampled(CashRequired(intent));
    var n :| n in Unsure(metadata, intent);
    assert Sample(Amount) != "0";
    CashMessageCommand(env, metadata, intent, entities);
    PendingIsComplete(env, EMPTY, CashMessage(intent, entities, metadata));
    CashPayloadLacks(intent, entities, n);
  }

  /** Every action of a kind that any run creates holds all its required slots if and only if the slot
      table does not lose slots: what it requires beyond the payload is nothing, or nothing that a
      message can complete the action with. */
  lemma CompletenessCondition(env: Env, ratio: B.Ratio, metadata: Metadata, intent: Intent)
    requires env.search == B.SearchWith(ratio) && intent in {TransferCreate, BeneficiaryAdd, CashDeposit, CashWithdraw}
    ensures AlwaysComplete(env, metadata, intent) <==> !LosesSlots(metadata, intent)
  {
    if !LosesSlots(metadata, intent) {
      forall es: seq<Event>, m: Message |
        ReadableRun(es) && Readable(m.reading) && m.metadata == metadata
        && Creates(env, Reached(env, es), m) && CommandOf(env, Reached(env, es), m).intent == intent
        ensures HoldsAllRequired(metadata, NewAction(m, CommandOf(env, Reached(env, es), m)))
      {
        NothingLost(env, es, m);
      }
    } else if KeepsSlots(intent) {
      var es, m := DialogueLoses(env, ratio, metadata, intent);
    } else {
      CashLoses(env, metadata, intent);
      assert Reached(env, []) == EMPTY;
    }
  }

  /** A new beneficiary is never created when the slot table requires of it what no message says and no
      conversation saves: its e-mail or its account, for instance. */
  lemma UnsaidBlocksBeneficiaries(env: Env, es: seq<Event>, m: Message, n: Name)
    requires ReadableRun(es) && Readable(m.reading) && n in Required(m.metadata, BeneficiaryAdd)
    requires n !in SavedKeys(BeneficiaryAdd) && forall heuristic :: n !in ReadKeys(heuristic)
    ensures CommandOf(env, Reached(env, es), m).intent == BeneficiaryAdd ==> !Creates(env, Reached(env, es), m)
  {
    var s := Reached(env, es);
    if CommandOf(env, s, m).intent == BeneficiaryAdd {
      RunSavesOnly(env, es);
      UnderstoodKeys(s, m);
      UnderstoodMissing(s, m);
      MissingIsExact(SlotsOf(m.metadata, BeneficiaryAdd), Understood(s, m).entities);
      assert n !in FilledKeys(Understood(s, m).entities);
      PendingIsComplete(env, s, m);
    }
  }

  lemma NothingLost(env: Env, es: seq<Event>, m: Message)
    requires ReadableRun(es) && Readable(m.reading) && Creates(env, Reached(env, es), m)
    requires !LosesSlots(m.metadata, CommandOf(env, Reached(env, es), m).intent)
    ensures HoldsAllRequired(m.metadata, NewAction(m, CommandOf(env, Reached(env, es), m)))
  {
    var command := CommandOf(env, Reached(env, es), m);
    forall n | n in Required(m.metadata, command.intent) ensures Get(command.payload, n) != "" {
      if Get(command.payload, n) == "" {
        PendingIsComplete(env, Reached(env, es), m);
        match command.intent
        case TransferCreate => LostTransferSlot(env, es, m, n);
        case BeneficiaryAdd => LostBeneficiarySlot(env, es, m, n);
        case _ => LostCashSlot(env, es, m, n);
      }
    }
  }
}
