/** A dialogue inside a run: while the conversation stays active and on its intent, slots only fill
    up, whatever its owner asks besides and whatever other users and sessions do in between. */
module DialogueRuns {
  import opened Assistant
  import opened AssistantLaw
  import opened AssistantRuns
  import opened Options
  import opened SlotFilling
  import opened Slots

  /** A turn of the owner about the intent of the conversation. */
  ghost predicate OnTopic(e: Event, session: SessionId, owner: UserId, intent: Intent) {
    e.Said? && Belongs(e.m, session, owner) && IntentOf(e.m.reading) in {UnknownIntent, intent}
  }

  ghost predicate IsActive(s: State, session: SessionId, owner: UserId, intent: Intent) {
    match LoadConversation(s, Some(session), owner)
    case None => false
    case Some(c) => c.active && c.intent == intent
  }

  ghost function SlotsAt(s: State, session: SessionId, owner: UserId): Fields {
    match LoadConversation(s, Some(session), owner)
    case None => map[]
    case Some(c) => c.slots
  }

  /** The slots of the intent that event `e` fills for the first time, when it is an allowed turn. */
  ghost function NewlyFilled(s: State, e: Event, session: SessionId, owner: UserId, intent: Intent): set<Name> {
    if OnTopic(e, session, owner, intent) && Allowed(e.m.user, intent) then
      FilledKeys(Spoken(e.m)) * StoredKeys(intent)
      - FilledKeys(SlotsAt(s, session, owner))
    else {}
  }

  /** A lawful step, whoever took it, keeps the filled slots and adds the newly filled ones. */
  lemma StepFills(env: Env, s: State, e: Event, t: State, session: SessionId, owner: UserId, intent: Intent)
    requires Obeys(env, s, e, t) && KeepsSlots(intent)
    requires IsActive(s, session, owner, intent) && IsActive(t, session, owner, intent)
    ensures FilledKeys(SlotsAt(s, session, owner)) * StoredKeys(intent) + NewlyFilled(s, e, session, owner, intent)
      <= FilledKeys(SlotsAt(t, session, owner))
  {
    if e.Said? && Belongs(e.m, session, owner) {
      var c := LoadConversation(s, Some(session), owner).value;
      if OnTopic(e, session, owner, intent) {
        assert Turn(s, e.m, c) && Answers(s, e.m, c, t);
        if t != s {
          CarriesFills(e.m, c, SlotsAt(t, session, owner));
        }
      } else {
        assert Aside(s, e.m, c) && Spares(e.m, c, t);
      }
    }
  }

  /** Between states `p` and `q` of the run, the conversation is active and on its intent. */
  ghost predicate Dialogue(r: Run, p: nat, q: nat, session: SessionId, owner: UserId, intent: Intent)
    requires Fits(r)
  {
    && p <= q <= |r.events| && KeepsSlots(intent)
    && (forall k :: p <= k <= q ==> IsActive(r.states[k], session, owner, intent))
  }

  /** The required slots still empty in state `k` of the run. */
  ghost function Lacking(r: Run, k: nat, session: SessionId, owner: UserId, required: set<Name>): set<Name>
    requires Fits(r) && k <= |r.events|
  {
    required - FilledKeys(SlotsAt(r.states[k], session, owner))
  }

  /** Event `k` of the run fills a required slot for the first time. */
  ghost predicate Useful(
    r: Run, k: nat, session: SessionId, owner: UserId, intent: Intent, required: set<Name>)
    requires Fits(r) && k < |r.events|
  {
    NewlyFilled(r.states[k], r.events[k], session, owner, intent) * required != {}
  }

  /** How many of the events `p..q` do. */
  ghost function UsefulTurns(
    r: Run, p: nat, q: nat, session: SessionId, owner: UserId, intent: Intent, required: set<Name>): nat
    requires Fits(r) && p <= q <= |r.events|
  {
    if p == q then 0
    else
      UsefulTurns(r, p, q - 1, session, owner, intent, required)
      + if Useful(r, q - 1, session, owner, intent, required) then 1 else 0
  }

  /** One step on plain sets: the new slots were lacking and no longer are. */
  lemma Shrinks(required: set<Name>, stored: set<Name>, before: set<Name>, gained: set<Name>, after: set<Name>)
    requires required <= stored && before * stored + gained <= after && gained * before == {}
    ensures required - after <= required - before
    ensures |required - after| + (if gained * required != {} then 1 else 0) <= |required - before|
  {
    var small, big := required - after, required - before;
    var rest := big - small;
    assert small <= big;
    assert big == small + rest;
    assert |big| == |small| + |rest|;
    if n :| n in gained * required {
      assert n !in gained * before && n in rest;
    }
  }

  lemma DialogueStep(r: Run, p: nat, q: nat, session: SessionId, owner: UserId, intent: Intent)
    requires Lawful(r) && p < q && Dialogue(r, p, q, session, owner, intent)
    ensures var s := r.states[q - 1];
      FilledKeys(SlotsAt(s, session, owner)) * StoredKeys(intent)
      + NewlyFilled(s, r.events[q - 1], session, owner, intent)
      <= FilledKeys(SlotsAt(r.states[q], session, owner))
  {
    assert LawfulAt(r, q - 1);
    StepFills(r.env, r.states[q - 1], r.events[q - 1], r.states[q], session, owner, intent);
  }

  /** A slot of the intent, once filled, is never emptied. */
  lemma {:induction false} FilledStaysFilled(
    r: Run, p: nat, q: nat, session: SessionId, owner: UserId, intent: Intent)
    requires Lawful(r) && Dialogue(r, p, q, session, owner, intent)
    ensures FilledKeys(SlotsAt(r.states[p], session, owner)) * StoredKeys(intent)
      <= FilledKeys(SlotsAt(r.states[q], session, owner))
    decreases q
  {
    if p < q {
      FilledStaysFilled(r, p, q - 1, session, owner, intent);
      DialogueStep(r, p, q, session, owner, intent);
    }
  }

  lemma TurnProgress(
    r: Run, p: nat, q: nat, session: SessionId, owner: UserId, intent: Intent, required: set<Name>)
    requires Lawful(r) && p < q && Dialogue(r, p, q, session, owner, intent) && required <= StoredKeys(intent)
    ensures Lacking(r, q, session, owner, required) <= Lacking(r, q - 1, session, owner, required)
    ensures |Lacking(r, q, session, owner, required)|
      + (if Useful(r, q - 1, session, owner, intent, required) then 1 else 0)
      <= |Lacking(r, q - 1, session, owner, required)|
  {
    var s := r.states[q - 1];
    DialogueStep(r, p, q, session, owner, intent);
    Shrinks(required, StoredKeys(intent), FilledKeys(SlotsAt(s, session, owner)),
      NewlyFilled(s, r.events[q - 1], session, owner, intent), FilledKeys(SlotsAt(r.states[q], session, owner)));
  }

  lemma ShorterDialogue(r: Run, p: nat, q: nat, session: SessionId, owner: UserId, intent: Intent)
    requires Fits(r) && p < q && Dialogue(r, p, q, session, owner, intent)
    ensures Dialogue(r, p, q - 1, session, owner, intent)
  {
  }

  lemma FewerLacking(required: set<Name>, stored: set<Name>, before: set<Name>, after: set<Name>)
    requires required <= stored && before * stored <= after
    ensures required - after <= required - before
  {
  }

  /** The set of missing required slots never grows. */
  lemma MissingNeverGrows(
    r: Run, p: nat, q: nat, session: SessionId, owner: UserId, intent: Intent, required: set<Name>)
    requires Lawful(r) && Dialogue(r, p, q, session, owner, intent) && required <= StoredKeys(intent)
    ensures Lacking(r, q, session, owner, required) <= Lacking(r, p, session, owner, required)
  {
    FilledStaysFilled(r, p, q, session, owner, intent);
    FewerLacking(required, StoredKeys(intent),
      FilledKeys(SlotsAt(r.states[p], session, owner)), FilledKeys(SlotsAt(r.states[q], session, owner)));
  }

  /** And the number of turns that fill one of them for the first time is bounded by its initial
      size: slot filling ends. */
  lemma {:induction false} SlotFillingProgress(
    r: Run, p: nat, q: nat, session: SessionId, owner: UserId, intent: Intent, required: set<Name>)
    requires Lawful(r) && Dialogue(r, p, q, session, owner, intent) && required <= StoredKeys(intent)
    ensures UsefulTurns(r, p, q, session, owner, intent, required) + |Lacking(r, q, session, owner, required)|
      <= |Lacking(r, p, session, owner, required)|
    decreases q
  {
    if p < q {
      ShorterDialogue(r, p, q, session, owner, intent);
      SlotFillingProgress(r, p, q - 1, session, owner, intent, required);
      TurnProgress(r, p, q, session, owner, intent, required);
    }
  }
}
