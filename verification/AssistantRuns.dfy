/** Whole runs of the AI gateway: any messages and confirmations of any users, in any order.
    The theorems hold of every state machine that keeps the law; the gateway is one. */
module AssistantRuns {
  import B = Beneficiaries
  import opened Assistant
  import opened AssistantLaw
  import opened Options
  import opened SlotFilling
  import opened Slots
  import opened Text

  /** A run: the events, and the states before, between and after them. */
  datatype Run = Run(env: Env, events: seq<Event>, states: seq<State>)

  ghost predicate Fits(r: Run) {
    |r.states| == |r.events| + 1
  }

  ghost predicate LawfulAt(r: Run, i: nat)
    requires Fits(r) && i < |r.events|
  {
    Obeys(r.env, r.states[i], r.events[i], r.states[i + 1])
  }

  /** A run from empty tables in which every step keeps the law. */
  ghost predicate Lawful(r: Run) {
    Fits(r) && r.states[0] == EMPTY && forall i: nat :: i < |r.events| ==> LawfulAt(r, i)
  }

  /** The states that a step function goes through. */
  function StatesOf(step: (State, Event) -> State, es: seq<Event>): (states: seq<State>)
    ensures |states| == |es| + 1
  {
    if es == [] then [EMPTY]
    else
      var before := StatesOf(step, es[..|es| - 1]);
      before + [step(before[|es| - 1], es[|es| - 1])]
  }

  /** What the gateway does when the events `es` reach it in this order. */
  function GatewayRun(env: Env, es: seq<Event>): Run {
    Run(env, es, StatesOf((s: State, e: Event) => Step(env, s, e), es))
  }

  lemma {:induction false} LawfulSteps(env: Env, step: (State, Event) -> State, es: seq<Event>)
    requires forall s: State, e: Event :: Obeys(env, s, e, step(s, e))
    ensures Lawful(Run(env, es, StatesOf(step, es)))
  {
    if es != [] {
      var n := |es| - 1;
      var before, r := Run(env, es[..n], StatesOf(step, es[..n])), Run(env, es, StatesOf(step, es));
      LawfulSteps(env, step, es[..n]);
      forall i: nat | i < |es| ensures LawfulAt(r, i) {
        assert i < n ==> LawfulAt(before, i);
      }
    }
  }

  /** The gateway is lawful, whatever reaches it. */
  lemma GatewayIsLawful(env: Env, es: seq<Event>)
    ensures Lawful(GatewayRun(env, es))
  {
    var step := (s: State, e: Event) => Step(env, s, e);
    forall s: State, e: Event ensures Obeys(env, s, e, step(s, e)) {
      GatewayObeys(env, s, e);
    }
    LawfulSteps(env, step, es);
  }

  // ---------- At most one effect ----------

  /** What a step may do to action `id`: leave it alone, or settle it once if it is pending. */
  ghost predicate StepOn(env: Env, s: State, t: State, e: Event, id: nat)
    requires id < |s.actions| && id < |t.actions|
  {
    t.actions[id] == s.actions[id]
    || (e.Decided? && e.d.action == id && Settles(env, s, t, e.d, s.actions[id], t.actions[id]))
  }

  lemma StepKeepsActions(env: Env, s: State, e: Event, t: State, id: nat)
    requires Obeys(env, s, e, t) && id < |s.actions|
    ensures id < |t.actions| && StepOn(env, s, t, e, id)
  {
    if e.Said? && t.actions != s.actions {
      assert t.actions[..|s.actions|][id] == t.actions[id];
    }
  }

  lemma NewIsProper(env: Env, s: State, e: Event, t: State, id: nat)
    requires Obeys(env, s, e, t) && |s.actions| <= id < |t.actions|
    ensures e.Said? && id == |s.actions| && Proper(e.m, t.actions[id])
  {
  }

  /** An action that has left `pending` never changes again. */
  lemma {:induction false} SettledForever(r: Run, k: nat, n: nat, id: nat)
    requires Lawful(r) && k <= n <= |r.events| && id < |r.states[k].actions|
    ensures id < |r.states[n].actions|
    ensures r.states[k].actions[id].status != Pending ==> r.states[n].actions[id] == r.states[k].actions[id]
    ensures SameRequest(r.states[k].actions[id], r.states[n].actions[id])
    decreases n
  {
    if k < n {
      SettledForever(r, k, n - 1, id);
      assert LawfulAt(r, n - 1);
      StepKeepsActions(r.env, r.states[n - 1], r.events[n - 1], r.states[n], id);
    }
  }

  ghost predicate ChangesAt(r: Run, i: nat, id: nat)
    requires Fits(r) && i < |r.events|
  {
    && id < |r.states[i].actions| && id < |r.states[i + 1].actions|
    && r.states[i].actions[id] != r.states[i + 1].actions[id]
  }

  lemma ChangeSettles(r: Run, i: nat, id: nat)
    requires Lawful(r) && i < |r.events| && ChangesAt(r, i, id)
    ensures r.events[i].Decided? && r.events[i].d.action == id
    ensures Settles(r.env, r.states[i], r.states[i + 1], r.events[i].d,
      r.states[i].actions[id], r.states[i + 1].actions[id])
  {
    assert LawfulAt(r, i);
    StepKeepsActions(r.env, r.states[i], r.events[i], r.states[i + 1], id);
  }

  /** In any run an action changes at most once. */
  lemma {:induction false} ChangesAtMostOnce(r: Run, i: nat, j: nat, id: nat)
    requires Lawful(r) && i < |r.events| && j < |r.events| && ChangesAt(r, i, id) && ChangesAt(r, j, id)
    ensures i == j
  {
    ChangeSettles(r, i, id);
    ChangeSettles(r, j, id);
    if i < j {
      SettledForever(r, i + 1, j, id);
    } else if j < i {
      SettledForever(r, j + 1, i, id);
    }
  }

  // ---------- Traceability ----------

  /** Event `j` is the message that asked for action `id`, then `a`. */
  ghost predicate CreatedAt(r: Run, j: nat, id: nat, a: Action)
    requires Fits(r) && j < |r.events|
  {
    && r.events[j].Said?
    && |r.states[j].actions| == id && |r.states[j + 1].actions| == id + 1
    && r.states[j + 1].actions[id] == a
    && Proper(r.events[j].m, a)
  }

  /** Event `i` is the confirmation of action `id` by its owner, in time and with its effect. */
  ghost predicate ExecutedAt(r: Run, i: nat, id: nat, a: Action)
    requires Fits(r) && i < |r.events|
  {
    var s, t := r.states[i], r.states[i + 1];
    && r.events[i].Decided? && r.events[i].d.action == id && r.events[i].d.confirm
    && r.events[i].d.user.id == a.user && r.events[i].d.now <= a.expiresAt
    && (a.intent == TransferCreate ==> !r.events[i].d.cut)
    && id < |s.actions| && s.actions[id] == a
    && id < |t.actions| && t.actions[id].status == Executed && SameRequest(a, t.actions[id])
    && Effect(r.env, s, t, t.actions[id], r.events[i].d.user)
  }

  lemma {:induction false} HasOrigin(r: Run, n: nat, id: nat) returns (j: nat, a: Action)
    requires Lawful(r) && n <= |r.events| && id < |r.states[n].actions|
    ensures j < n && CreatedAt(r, j, id, a) && SameRequest(a, r.states[n].actions[id])
    ensures r.states[n].actions[id].status == Pending ==> r.states[n].actions[id] == a
    decreases n
  {
    var s, t := r.states[n - 1], r.states[n];
    assert LawfulAt(r, n - 1);
    if id < |s.actions| {
      j, a := HasOrigin(r, n - 1, id);
      StepKeepsActions(r.env, s, r.events[n - 1], t, id);
    } else {
      NewIsProper(r.env, s, r.events[n - 1], t, id);
      j, a := n - 1, t.actions[id];
    }
  }

  /** After `n` events, action `id` is as event `i` left it: created by event `j`, executed by event `i`. */
  ghost predicate Traced(r: Run, n: nat, id: nat, j: nat, i: nat, a: Action)
    requires Fits(r)
  {
    && j < i < n <= |r.events| && CreatedAt(r, j, id, a) && ExecutedAt(r, i, id, a)
    && id < |r.states[n].actions| && r.states[n].actions[id] == r.states[i + 1].actions[id]
  }

  lemma TracedNow(r: Run, i: nat, id: nat) returns (j: nat, a: Action)
    requires Lawful(r) && i < |r.events| && ChangesAt(r, i, id) && r.states[i + 1].actions[id].status == Executed
    ensures Traced(r, i + 1, id, j, i, a)
  {
    ChangeSettles(r, i, id);
    j, a := HasOrigin(r, i, id);
  }

  /** Every executed action was created, complete and allowed, by an earlier message of its owner,
      stayed pending until its owner confirmed it in time, and had its one effect then. */
  lemma {:induction false} Traceability(r: Run, n: nat, id: nat) returns (j: nat, i: nat, a: Action)
    requires Lawful(r) && n <= |r.events| && id < |r.states[n].actions| && r.states[n].actions[id].status == Executed
    ensures Traced(r, n, id, j, i, a)
    decreases n
  {
    var s, t := r.states[n - 1], r.states[n];
    assert LawfulAt(r, n - 1);
    if id >= |s.actions| {
      NewIsProper(r.env, s, r.events[n - 1], t, id);
      assert false;
    } else if s.actions[id] == t.actions[id] {
      j, i, a := Traceability(r, n - 1, id);
    } else {
      i := n - 1;
      j, a := TracedNow(r, i, id);
    }
  }

  /** It then held every slot required of it, if the slot table requires only what payloads store. */
  lemma TracedHoldsAllRequired(r: Run, n: nat, id: nat, j: nat, i: nat, a: Action)
    requires Fits(r) && Traced(r, n, id, j, i, a)
    requires Required(r.events[j].m.metadata, a.intent) <= SureKeys(a.intent)
    ensures HoldsAllRequired(r.events[j].m.metadata, a)
    ensures SameRequest(a, r.states[n].actions[id])
  {
    CompleteHoldsAll(r.events[j].m.metadata, a);
  }

  /** No run reaches the status `confirmed`: it is kept for intents no message turns into an action. */
  lemma {:induction false} NeverJustConfirmed(r: Run, n: nat, id: nat)
    requires Lawful(r) && n <= |r.events| && id < |r.states[n].actions|
    ensures KnownIntent(r.states[n].actions[id]) && r.states[n].actions[id].status != Confirmed
    decreases n
  {
    var s, t := r.states[n - 1], r.states[n];
    assert LawfulAt(r, n - 1);
    if id < |s.actions| {
      NeverJustConfirmed(r, n - 1, id);
      StepKeepsActions(r.env, s, r.events[n - 1], t, id);
    } else {
      NewIsProper(r.env, s, r.events[n - 1], t, id);
    }
  }

  /** Event `i` is the confirmation of action `id` by its owner, in time, but cut short: the transfer
      is there, and the action is still pending. */
  ghost predicate CutAt(r: Run, i: nat, id: nat, a: Action)
    requires Fits(r) && i < |r.events|
  {
    && r.events[i].Decided? && r.events[i].d.action == id && r.events[i].d.user.id == a.user
    && id < |r.states[i].actions| && r.states[i].actions[id] == a
    && Orphans(r.env, r.states[i], r.states[i + 1], r.events[i].d)
  }

  /** Tables only change when a pending action is confirmed by its owner in time, and then as its
      effect says; a transfer that is cut short is recorded all the same. */
  lemma TablesChangeByConfirmation(r: Run, i: nat) returns (id: nat, a: Action)
    requires Lawful(r) && i < |r.events| && !SameTables(r.states[i], r.states[i + 1])
    ensures ExecutedAt(r, i, id, a) || CutAt(r, i, id, a)
    ensures CutAt(r, i, id, a) <==> r.events[i].d.cut && a.intent == TransferCreate
  {
    assert LawfulAt(r, i);
    assert r.events[i].Decided?;
    id := r.events[i].d.action;
    a := r.states[i].actions[id];
  }

  // ---------- Refusals and expiries are final ----------

  /** Event `i` is a decision of the owner on action `id`, which is pending. */
  ghost predicate DecidesAt(r: Run, i: nat, id: nat)
    requires Fits(r) && i < |r.events|
  {
    && r.events[i].Decided? && r.events[i].d.action == id
    && id < |r.states[i].actions| && r.states[i].actions[id].status == Pending
    && r.states[i].actions[id].user == r.events[i].d.user.id
  }

  /** Deciding on an action that is not pending changes nothing at all. */
  lemma SettledIsLeftAlone(r: Run, i: nat, id: nat)
    requires Lawful(r) && i < |r.events| && r.events[i].Decided? && r.events[i].d.action == id
    requires id < |r.states[i].actions| && r.states[i].actions[id].status != Pending
    ensures r.states[i + 1] == r.states[i]
  {
    assert LawfulAt(r, i);
  }

  /** From event `i` on, action `id` has `status`, and no decision on it changes a table. */
  ghost predicate EndsAt(r: Run, i: nat, n: nat, id: nat, status: Status)
    requires Fits(r) && i < n <= |r.events|
  {
    && id < |r.states[n].actions| && r.states[n].actions[id].status == status
    && forall k :: i <= k < n && r.events[k].Decided? && r.events[k].d.action == id ==>
         SameTables(r.states[k], r.states[k + 1])
  }

  lemma EndIsFinal(r: Run, i: nat, n: nat, id: nat, status: Status)
    requires Lawful(r) && i < n <= |r.events| && DecidesAt(r, i, id) && status in {Cancelled, Expired}
    requires id < |r.states[i + 1].actions| && r.states[i + 1].actions[id].status == status
    ensures EndsAt(r, i, n, id, status)
  {
    assert LawfulAt(r, i);
    SettledForever(r, i + 1, n, id);
    forall k | i <= k < n && r.events[k].Decided? && r.events[k].d.action == id
      ensures SameTables(r.states[k], r.states[k + 1])
    {
      if k > i {
        SettledForever(r, i + 1, k, id);
        SettledIsLeftAlone(r, k, id);
      }
    }
  }

  /** An owner's refusal of a pending action in time cancels it for good: no later event changes it, and
      no decision on it ever records a row. */
  lemma RefusalIsFinal(r: Run, i: nat, n: nat, id: nat)
    requires Lawful(r) && i < n <= |r.events| && DecidesAt(r, i, id)
    requires !r.events[i].d.confirm && r.events[i].d.now <= r.states[i].actions[id].expiresAt
    ensures EndsAt(r, i, n, id, Cancelled)
  {
    assert LawfulAt(r, i);
    EndIsFinal(r, i, n, id, Cancelled);
  }

  /** Any decision of the owner after the expiry, yes or no, lets the action expire for good. */
  lemma ExpiryIsFinal(r: Run, i: nat, n: nat, id: nat)
    requires Lawful(r) && i < n <= |r.events| && DecidesAt(r, i, id)
    requires r.states[i].actions[id].expiresAt < r.events[i].d.now
    ensures EndsAt(r, i, n, id, Expired)
  {
    assert LawfulAt(r, i);
    EndIsFinal(r, i, n, id, Expired);
  }

  // ---------- Every row has one action ----------

  ghost predicate AsksCash(s: State, id: nat, k: nat) {
    id < |s.actions| && s.actions[id].result == Requested(k)
  }

  ghost predicate Sends(s: State, id: nat, k: nat) {
    id < |s.actions| && s.actions[id].result == Sent(k)
  }

  ghost predicate Saves(s: State, id: nat, row: Beneficiary) {
    id < |s.actions| && s.actions[id].result == SavedAs(row)
  }

  ghost predicate RowSaved(s: State, row: Beneficiary) {
    exists id: nat :: Saves(s, id, row)
  }

  ghost predicate CashAsked(s: State, k: nat) {
    exists id: nat :: AsksCash(s, id, k)
  }

  ghost predicate TransferSent(s: State, k: nat) {
    exists id: nat :: Sends(s, id, k)
  }

  ghost predicate ResultsMatchStatus(s: State) {
    forall id :: 0 <= id < |s.actions| ==> (s.actions[id].result == NoResult <==> s.actions[id].status != Executed)
  }

  ghost predicate CashBooks(s: State) {
    && (forall k :: 0 <= k < |s.cashRequests| ==> CashAsked(s, k))
    && (forall id: nat, k: nat :: AsksCash(s, id, k) ==>
          k < |s.cashRequests| && s.cashRequests[k].user == s.actions[id].user)
    && (forall id: nat, other: nat, k: nat :: AsksCash(s, id, k) && AsksCash(s, other, k) ==> id == other)
  }

  ghost predicate SentBooks(s: State) {
    && (forall id: nat, k: nat :: Sends(s, id, k) ==> k < |s.transfers| && s.transfers[k].user == s.actions[id].user)
    && (forall id: nat, other: nat, k: nat :: Sends(s, id, k) && Sends(s, other, k) ==> id == other)
  }

  ghost predicate EveryTransferSent(s: State) {
    forall k :: 0 <= k < |s.transfers| ==> TransferSent(s, k)
  }

  /** Each beneficiary stands as some action of its user saved it. */
  ghost predicate SaveBooks(s: State) {
    && (forall row :: row in s.beneficiaries ==> RowSaved(s, row))
    && (forall id: nat, row :: Saves(s, id, row) ==> row.user == s.actions[id].user)
  }

  ghost predicate Books(s: State) {
    ResultsMatchStatus(s) && CashBooks(s) && SentBooks(s) && SaveBooks(s)
  }

  /** Actions that only gained pending ones, over tables that gained at most a transfer. */
  lemma SameResults(s: State, t: State)
    requires Books(s) && t.beneficiaries == s.beneficiaries && t.cashRequests == s.cashRequests
    requires |s.transfers| <= |t.transfers| && t.transfers[..|s.transfers|] == s.transfers
    requires t.actions == s.actions || (|t.actions| == |s.actions| + 1 && t.actions[..|s.actions|] == s.actions
      && t.actions[|s.actions|].status == Pending && t.actions[|s.actions|].result == NoResult)
    ensures Books(t)
  {
    assert forall id: nat, k: nat :: AsksCash(t, id, k) <==> AsksCash(s, id, k);
    assert forall id: nat, k: nat :: Sends(t, id, k) <==> Sends(s, id, k);
    assert forall id: nat, row :: Saves(t, id, row) <==> Saves(s, id, row);
    assert forall k: nat :: CashAsked(s, k) ==> CashAsked(t, k);
    assert forall row :: RowSaved(s, row) ==> RowSaved(t, row);
  }

  /** `t` comes from `s` by settling the action of decision `d`. */
  ghost predicate Settled(env: Env, s: State, t: State, d: Decision) {
    && |t.actions| == |s.actions| && d.action < |s.actions|
    && (forall id :: 0 <= id < |s.actions| && id != d.action ==> t.actions[id] == s.actions[id])
    && Settles(env, s, t, d, s.actions[d.action], t.actions[d.action])
  }

  lemma SettlingKeepsCashBooks(env: Env, s: State, t: State, d: Decision)
    requires ResultsMatchStatus(s) && CashBooks(s) && Settled(env, s, t, d)
    ensures CashBooks(t)
  {
    var b := t.actions[d.action];
    assert forall id: nat, k: nat ::
      AsksCash(t, id, k) <==> AsksCash(s, id, k) || (id == d.action && b.result == Requested(k));
    assert forall k: nat :: CashAsked(s, k) ==> CashAsked(t, k);
    assert b.result.Requested? ==> AsksCash(t, d.action, b.result.request);
  }

  lemma SettlingKeepsSentBooks(env: Env, s: State, t: State, d: Decision)
    requires ResultsMatchStatus(s) && SentBooks(s) && Settled(env, s, t, d)
    ensures SentBooks(t)
  {
    var b := t.actions[d.action];
    assert forall id: nat, k: nat :: Sends(t, id, k) <==> Sends(s, id, k) || (id == d.action && b.result == Sent(k));
  }

  lemma SettlingKeepsSaveBooks(env: Env, s: State, t: State, d: Decision)
    requires ResultsMatchStatus(s) && SaveBooks(s) && Settled(env, s, t, d)
    ensures SaveBooks(t)
  {
    var b := t.actions[d.action];
    assert forall id: nat, row ::
      Saves(t, id, row) <==> Saves(s, id, row) || (id == d.action && b.result == SavedAs(row));
    assert forall row :: RowSaved(s, row) ==> RowSaved(t, row);
    assert b.result.SavedAs? ==> Saves(t, d.action, b.result.row);
  }

  lemma SettlingKeepsBooks(env: Env, s: State, t: State, d: Decision)
    requires Books(s) && Settled(env, s, t, d)
    ensures Books(t)
  {
    SettlingKeepsCashBooks(env, s, t, d);
    SettlingKeepsSentBooks(env, s, t, d);
    SettlingKeepsSaveBooks(env, s, t, d);
    assert ResultsMatchStatus(t);
  }

  lemma StepKeepsBooks(env: Env, s: State, e: Event, t: State)
    requires Books(s) && Obeys(env, s, e, t)
    ensures Books(t)
  {
    if e.Decided? && t.actions != s.actions {
      SettlingKeepsBooks(env, s, t, e.d);
    } else {
      SameResults(s, t);
    }
  }

  lemma {:induction false} BooksHold(r: Run, n: nat)
    requires Lawful(r) && n <= |r.events|
    ensures Books(r.states[n])
  {
    if n > 0 {
      BooksHold(r, n - 1);
      assert LawfulAt(r, n - 1);
      StepKeepsBooks(r.env, r.states[n - 1], r.events[n - 1], r.states[n]);
    }
  }

  /** Each cash request comes from one action, which is traced back to its messages. */
  lemma CashRequestIsTraced(r: Run, n: nat, k: nat) returns (id: nat, j: nat, i: nat, a: Action)
    requires Lawful(r) && n <= |r.events| && k < |r.states[n].cashRequests|
    ensures AsksCash(r.states[n], id, k) && Traced(r, n, id, j, i, a)
    ensures r.states[n].cashRequests[k].user == a.user
    ensures forall other: nat :: AsksCash(r.states[n], other, k) ==> other == id
  {
    BooksHold(r, n);
    assert CashAsked(r.states[n], k);
    id :| AsksCash(r.states[n], id, k);
    j, i, a := Traceability(r, n, id);
  }

  /** And each beneficiary stands as an action of its user saved it. */
  lemma BeneficiaryIsTraced(r: Run, n: nat, row: Beneficiary) returns (id: nat, j: nat, i: nat, a: Action)
    requires Lawful(r) && n <= |r.events| && row in r.states[n].beneficiaries
    ensures Saves(r.states[n], id, row) && Traced(r, n, id, j, i, a)
    ensures row.user == a.user
  {
    BooksHold(r, n);
    assert RowSaved(r.states[n], row);
    id :| Saves(r.states[n], id, row);
    j, i, a := Traceability(r, n, id);
  }

  // ---------- External transfers ----------

  /** Event `i` was cut short after the transfer core had committed. */
  ghost predicate LeavesOrphan(r: Run, i: nat)
    requires Fits(r) && i < |r.events|
  {
    r.events[i].Decided? && Orphans(r.env, r.states[i], r.states[i + 1], r.events[i].d)
  }

  ghost predicate Uncut(r: Run, n: nat)
    requires Fits(r) && n <= |r.events|
  {
    forall i: nat :: i < n ==> !LeavesOrphan(r, i)
  }

  /** Row `k`, recorded for an action that never points to it. */
  ghost predicate Unsent(s: State, k: nat) {
    k < |s.transfers| && !TransferSent(s, k)
  }

  lemma StepKeepsUnsent(env: Env, s: State, e: Event, t: State, k: nat)
    requires Obeys(env, s, e, t) && Unsent(s, k)
    ensures Unsent(t, k)
  {
    forall id: nat ensures !Sends(t, id, k) {
      assert !Sends(s, id, k);
      if id < |s.actions| {
        StepKeepsActions(env, s, e, t, id);
      }
    }
  }

  lemma StepKeepsSent(env: Env, s: State, e: Event, t: State)
    requires Obeys(env, s, e, t) && EveryTransferSent(s)
    requires !(e.Decided? && Orphans(env, s, t, e.d)) && ResultsMatchStatus(s)
    ensures EveryTransferSent(t)
  {
    forall k | 0 <= k < |t.transfers| ensures TransferSent(t, k) {
      if k < |s.transfers| {
        assert TransferSent(s, k);
        var id: nat :| Sends(s, id, k);
        StepKeepsActions(env, s, e, t, id);
        assert Sends(t, id, k);
      } else {
        assert Sends(t, e.d.action, k);
      }
    }
  }

  lemma {:induction false} OrphanStays(r: Run, i: nat, n: nat)
    requires Lawful(r) && i < n <= |r.events| && LeavesOrphan(r, i)
    ensures Unsent(r.states[n], |r.states[i].transfers|)
    decreases n
  {
    assert LawfulAt(r, n - 1);
    if i + 1 == n {
      BooksHold(r, i);
      assert forall id: nat, k: nat :: Sends(r.states[n], id, k) ==> Sends(r.states[i], id, k);
    } else {
      OrphanStays(r, i, n - 1);
      StepKeepsUnsent(r.env, r.states[n - 1], r.events[n - 1], r.states[n], |r.states[i].transfers|);
    }
  }

  lemma {:induction false} UncutIsSent(r: Run, n: nat)
    requires Lawful(r) && n <= |r.events| && Uncut(r, n)
    ensures EveryTransferSent(r.states[n])
  {
    if n > 0 {
      UncutIsSent(r, n - 1);
      BooksHold(r, n - 1);
      assert LawfulAt(r, n - 1) && !LeavesOrphan(r, n - 1);
      StepKeepsSent(r.env, r.states[n - 1], r.events[n - 1], r.states[n]);
    }
  }

  /** Every transfer of a run belongs to an executed action if and only if no accepted transfer was
      cut short. */
  lemma EveryTransferSentIffUncut(r: Run, n: nat)
    requires Lawful(r) && n <= |r.events|
    ensures EveryTransferSent(r.states[n]) <==> Uncut(r, n)
  {
    if Uncut(r, n) {
      UncutIsSent(r, n);
    } else {
      var i: nat :| i < n && LeavesOrphan(r, i);
      OrphanStays(r, i, n);
    }
  }

  /** Without a cut, each external transfer too comes from one action, which is traced. */
  lemma TransferIsTraced(r: Run, n: nat, k: nat) returns (id: nat, j: nat, i: nat, a: Action)
    requires Lawful(r) && n <= |r.events| && k < |r.states[n].transfers| && Uncut(r, n)
    ensures Sends(r.states[n], id, k) && Traced(r, n, id, j, i, a)
    ensures r.states[n].transfers[k].user == a.user
    ensures forall other: nat :: Sends(r.states[n], other, k) ==> other == id
  {
    BooksHold(r, n);
    UncutIsSent(r, n);
    assert TransferSent(r.states[n], k);
    id :| Sends(r.states[n], id, k);
    j, i, a := Traceability(r, n, id);
  }

  /** Event `i` recorded transfer `k` for action `id`, then `a`, which event `j` had asked for. */
  ghost predicate RecordedAt(r: Run, i: nat, k: nat, j: nat, id: nat, a: Action)
    requires Fits(r) && i < |r.events|
  {
    && j < i && CreatedAt(r, j, id, a) && (ExecutedAt(r, i, id, a) || CutAt(r, i, id, a))
    && k == |r.states[i].transfers| && k < |r.states[i + 1].transfers|
    && TransferMatches(r.env, a, r.states[i + 1].transfers[k])
  }

  lemma NewTransferIsConfirmed(r: Run, i: nat) returns (j: nat, id: nat, a: Action)
    requires Lawful(r) && i < |r.events| && |r.states[i].transfers| < |r.states[i + 1].transfers|
    ensures |r.states[i + 1].transfers| == |r.states[i].transfers| + 1
    ensures RecordedAt(r, i, |r.states[i].transfers|, j, id, a)
  {
    id, a := TablesChangeByConfirmation(r, i);
    var b;
    j, b := HasOrigin(r, i, id);
    assert LawfulAt(r, i);
  }

  /** Cut or not, every transfer was recorded by one timely confirmation, by its owner, of an action
      that was pending, complete and allowed, and it says what that action says. */
  lemma {:induction false} TransferIsConfirmed(r: Run, n: nat, k: nat) returns (i: nat, j: nat, id: nat, a: Action)
    requires Lawful(r) && n <= |r.events| && k < |r.states[n].transfers|
    ensures i < n && RecordedAt(r, i, k, j, id, a) && r.states[n].transfers[k] == r.states[i + 1].transfers[k]
    decreases n
  {
    var s, t := r.states[n - 1], r.states[n];
    assert LawfulAt(r, n - 1);
    if k < |s.transfers| {
      i, j, id, a := TransferIsConfirmed(r, n - 1, k);
      assert t.transfers[..|s.transfers|] == s.transfers;
    } else {
      i := n - 1;
      j, id, a := NewTransferIsConfirmed(r, i);
    }
  }

  /** How often a transfer was recorded for action `id`. */
  ghost function Recordings(r: Run, n: nat, id: nat): nat
    requires Fits(r) && n <= |r.events|
  {
    if n == 0 then 0
    else Recordings(r, n - 1, id) + if Records(r.states[n - 1], r.events[n - 1], r.states[n], id) then 1 else 0
  }

  ghost predicate Records(s: State, e: Event, t: State, id: nat) {
    e.Decided? && e.d.action == id && |t.transfers| > |s.transfers|
  }

  /** How often it was recorded by a confirmation that left the action pending. */
  ghost function Orphanings(r: Run, n: nat, id: nat): nat
    requires Fits(r) && n <= |r.events|
  {
    if n == 0 then 0
    else Orphanings(r, n - 1, id) + if LeavesOrphan(r, n - 1) && r.events[n - 1].d.action == id then 1 else 0
  }

  /** How often a confirmation of action `id` was cut short. */
  function Cuts(es: seq<Event>, n: nat, id: nat): nat
    requires n <= |es|
  {
    if n == 0 then 0 else Cuts(es, n - 1, id) + if IsCut(es[n - 1], id) then 1 else 0
  }

  predicate IsCut(e: Event, id: nat) {
    e.Decided? && e.d.action == id && e.d.confirm && e.d.cut
  }

  ghost function SentOnce(s: State, id: nat): nat {
    if id < |s.actions| && s.actions[id].result.Sent? then 1 else 0
  }

  lemma StepRecords(env: Env, s: State, e: Event, t: State, id: nat)
    requires Obeys(env, s, e, t) && ResultsMatchStatus(s)
    ensures SentOnce(s, id) + (if Records(s, e, t, id) then 1 else 0)
      == SentOnce(t, id) + (if e.Decided? && e.d.action == id && Orphans(env, s, t, e.d) then 1 else 0)
  {
    if id < |s.actions| {
      StepKeepsActions(env, s, e, t, id);
    }
  }

  /** An action has one transfer for each confirmation that was cut short after the core's commit,
      and one more when it is executed: at most one more than it has cut confirmations. */
  lemma {:induction false} AtMostOneMoreThanCuts(r: Run, n: nat, id: nat)
    requires Lawful(r) && n <= |r.events|
    ensures Recordings(r, n, id) == Orphanings(r, n, id) + SentOnce(r.states[n], id)
    ensures Orphanings(r, n, id) <= Cuts(r.events, n, id)
  {
    if n > 0 {
      AtMostOneMoreThanCuts(r, n - 1, id);
      BooksHold(r, n - 1);
      assert LawfulAt(r, n - 1);
      StepRecords(r.env, r.states[n - 1], r.events[n - 1], r.states[n], id);
    }
  }

  // ---------- Beneficiary keys ----------

  /** The unique index of the table. */
  ghost predicate UniqueKeys(rows: seq<Beneficiary>) {
    forall i, j :: 0 <= i < j < |rows| ==> KeyOf(rows[i]) != KeyOf(rows[j])
  }

  /** Row by row, the keys of `before` stay, and at most one row is new. */
  ghost predicate KeysStay(before: seq<Beneficiary>, after: seq<Beneficiary>) {
    |before| <= |after| <= |before| + 1 && forall i :: 0 <= i < |before| ==> KeyOf(after[i]) == KeyOf(before[i])
  }

  lemma WriteKeepsKeys(before: seq<Beneficiary>, after: seq<Beneficiary>, row: Beneficiary)
    requires OneRowWritten(before, after, row)
    ensures KeysStay(before, after) && (UniqueKeys(before) ==> UniqueKeys(after))
  {
  }

  /** A step, confirmed `beneficiary.add` or not, changes no row's key and never repeats one. */
  lemma StepKeepsKeys(env: Env, s: State, e: Event, t: State)
    requires Obeys(env, s, e, t)
    ensures KeysStay(s.beneficiaries, t.beneficiaries)
    ensures UniqueKeys(s.beneficiaries) ==> UniqueKeys(t.beneficiaries)
  {
    if t.beneficiaries != s.beneficiaries {
      var b := t.actions[e.d.action];
      WriteKeepsKeys(s.beneficiaries, t.beneficiaries, b.result.row);
    }
  }

  /** No run gives a user two beneficiaries with the same partner, phone and account. */
  lemma {:induction false} BeneficiariesAreUnique(r: Run, n: nat)
    requires Lawful(r) && n <= |r.events|
    ensures UniqueKeys(r.states[n].beneficiaries)
  {
    if n > 0 {
      BeneficiariesAreUnique(r, n - 1);
      assert LawfulAt(r, n - 1);
      StepKeepsKeys(r.env, r.states[n - 1], r.events[n - 1], r.states[n]);
    }
  }

  // ---------- The gateway ----------

  ghost predicate HasTrace(r: Run, n: nat, id: nat)
    requires Fits(r)
  {
    exists j: nat, i: nat, a: Action :: Traced(r, n, id, j, i, a)
  }

  /** The last state: every executed action is traced, no key is repeated, and every row has one
      action, save for the transfers that were cut short. */
  ghost predicate EndsWell(r: Run)
    requires Fits(r)
  {
    var n, s := |r.events|, r.states[|r.events|];
    && (forall id: nat :: id < |s.actions| && s.actions[id].status == Executed ==> HasTrace(r, n, id))
    && Books(s) && UniqueKeys(s.beneficiaries)
    && (EveryTransferSent(s) <==> Uncut(r, n))
    && forall id: nat :: Recordings(r, n, id) == Orphanings(r, n, id) + SentOnce(s, id)
  }

  lemma LawfulRunsEndWell(r: Run)
    requires Lawful(r)
    ensures EndsWell(r)
  {
    var n, s := |r.events|, r.states[|r.events|];
    forall id: nat | id < |s.actions| && s.actions[id].status == Executed ensures HasTrace(r, n, id) {
      var j, i, a := Traceability(r, n, id);
    }
    BooksHold(r, n);
    BeneficiariesAreUnique(r, n);
    EveryTransferSentIffUncut(r, n);
    forall id: nat ensures Recordings(r, n, id) == Orphanings(r, n, id) + SentOnce(s, id) {
      AtMostOneMoreThanCuts(r, n, id);
    }
  }

  /** Every run of the gateway, whatever reaches it, ends well. */
  lemma GatewayRunsEndWell(env: Env, es: seq<Event>)
    ensures EndsWell(GatewayRun(env, es))
  {
    GatewayIsLawful(env, es);
    LawfulRunsEndWell(GatewayRun(env, es));
  }

  lemma {:induction false} StatesFollow(step: (State, Event) -> State, es: seq<Event>, i: nat)
    requires i < |es|
    ensures StatesOf(step, es)[0] == EMPTY
    ensures StatesOf(step, es)[i + 1] == step(StatesOf(step, es)[i], es[i])
  {
    if |es| > 1 {
      StatesFollow(step, es[..|es| - 1], if i < |es| - 1 then i else 0);
    }
  }

  /** The decision takes an accepted transfer to the core, and is cut short there. */
  ghost predicate CutsTransfer(env: Env, s: State, e: Event) {
    e.Decided? && e.d.cut && CoreAccepts(env, s, e.d)
  }

  lemma OrphanIsCutTransfer(env: Env, es: seq<Event>, i: nat)
    requires i < |es|
    ensures LeavesOrphan(GatewayRun(env, es), i) <==> CutsTransfer(env, GatewayRun(env, es).states[i], es[i])
  {
    var step := (s: State, e: Event) => Step(env, s, e);
    StatesFollow(step, es, i);
    if es[i].Decided? {
      OrphansIff(env, GatewayRun(env, es).states[i], es[i].d);
    }
  }

  /** When the gateway ends a run, every transfer belongs to an executed action if and only if no
      confirmation was cut short whose transfer the core accepted. */
  lemma GatewayTransfersSentIffUncut(env: Env, es: seq<Event>)
    ensures var r := GatewayRun(env, es);
      EveryTransferSent(r.states[|es|]) <==> forall i: nat :: i < |es| ==> !CutsTransfer(env, r.states[i], es[i])
  {
    var r := GatewayRun(env, es);
    GatewayIsLawful(env, es);
    EveryTransferSentIffUncut(r, |es|);
    forall i: nat | i < |es| ensures LeavesOrphan(r, i) <==> CutsTransfer(env, r.states[i], es[i]) {
      OrphanIsCutTransfer(env, es, i);
    }
  }

  lemma ThreeSteps(step: (State, Event) -> State, es: seq<Event>, s1: State, s2: State, s3: State)
    requires |es| == 3 && step(EMPTY, es[0]) == s1 && step(s1, es[1]) == s2 && step(s2, es[2]) == s3
    ensures StatesOf(step, es)[3] == s3
  {
    StatesFollow(step, es, 0);
    StatesFollow(step, es, 1);
    StatesFollow(step, es, 2);
  }

  lemma GatewayThreeSteps(env: Env, m: Message, d: Decision, again: Decision)
    ensures GatewayRun(env, [Said(m), Decided(d), Decided(again)]).states[3]
      == Confirm(env, Confirm(env, HandleMessage(env, EMPTY, m).0, d).0, again).0
  {
    var step := (s: State, e: Event) => Step(env, s, e);
    var s1 := step(EMPTY, Said(m));
    ThreeSteps(step, [Said(m), Decided(d), Decided(again)],
      s1, step(s1, Decided(d)), step(step(s1, Decided(d)), Decided(again)));
  }

  const TO_JEAN: Fields := map[Amount := "100", OriginCurrency := "EUR", RecipientName := "Jean",
    PartnerName := "Lumicash", RecipientPhone := "+25761234567", CountryDestination := "Burundi"]

  /** The slot table that the schema is seeded with, for transfers. */
  const SEEDED: Metadata := map[TransferCreate := [Slot(Amount, true), Slot(OriginCurrency, true),
    Slot(RecipientName, true), Slot(PartnerName, true), Slot(RecipientPhone, true), Slot(CountryDestination, true)]]

  lemma ToJeanSaysAll()
    ensures Missing(SlotsOf(SEEDED, TransferCreate), TO_JEAN) == []
  {
    forall n | n in RequiredNames(SEEDED[TransferCreate]) ensures Get(TO_JEAN, n) != "" {
    }
    NothingMissing(SEEDED[TransferCreate], TO_JEAN);
  }

  lemma ToJeanIsAccepted(env: Env, s: State, d: Decision)
    requires forall text :: env.decimalOf(text) == Some(100.0)
    requires |s.actions| == 1 && s.actions[0].payload == TransferPayload(TO_JEAN)
    requires s.actions[0].intent == TransferCreate && Due(s, d) && Allowed(d.user, TransferCreate) && d.accepted
    ensures CoreAccepts(env, s, d)
  {
    var payload := s.actions[0].payload;
    assert Get(payload, PartnerName) == "Lumicash" && Get(payload, RecipientName) == "Jean";
    assert Get(payload, CountryDestination) == "Burundi" && Account(payload) == "";
    assert Strip("Burundi") == "Burundi";
  }

  /** The message of a complete transfer, and its confirmation, which the core accepts. */
  lemma AcceptedTransfer() returns (env: Env, m: Message, d: Decision)
    ensures m.metadata == SEEDED && d.action == 0 && d.confirm && d.cut
    ensures HandleMessage(env, EMPTY, m).0.transfers == [] && |HandleMessage(env, EMPTY, m).0.actions| == 1
    ensures CoreAccepts(env, HandleMessage(env, EMPTY, m).0, d)
  {
    env := Env((fields, rows) => B.Unchanged, text => Some(100.0), text => true);
    m := Opening(TransferCreate, TO_JEAN, SEEDED);
    d := Decision(User(0, Active, false, Verified), 0, true, 0, true, true);
    ToJeanSaysAll();
    FirstMessage(env, TO_JEAN, SEEDED);
    ToJeanIsAccepted(env, HandleMessage(env, EMPTY, m).0, d);
  }

  lemma FirstMessage(env: Env, entities: Fields, metadata: Metadata)
    requires FindsNothing(env) && Missing(SlotsOf(metadata, TransferCreate), entities) == []
    ensures var s := HandleMessage(env, EMPTY, Opening(TransferCreate, entities, metadata)).0;
      && s.transfers == []
      && s.actions == [Action(
           0, None, TransferCreate, TransferPayload(entities), TEN_MINUTES, Pending, None, None, NoResult)]
  {
    var m := Opening(TransferCreate, entities, metadata);
    OpeningIsRead(env, entities, metadata);
    PendingIsComplete(env, EMPTY, m);
    MessageFrame(env, EMPTY, m);
  }

  /** One action, two equal transfers, of which it only knows the last. */
  ghost predicate SentTwice(s: State) {
    && |s.actions| == 1 && s.actions[0].status == Executed && s.actions[0].result == Sent(1)
    && |s.transfers| == 2 && s.transfers[0] == s.transfers[1]
  }

  lemma SentTwiceHasOrphan(s: State)
    requires SentTwice(s)
    ensures !EveryTransferSent(s)
  {
    assert !TransferSent(s, 0);
  }

  lemma CutConfirmationSendsTwice(env: Env, s: State, d: Decision)
    requires |s.actions| == 1 && s.transfers == [] && CoreAccepts(env, s, d) && d.cut
    ensures SentTwice(Confirm(env, Confirm(env, s, d).0, d.(cut := false)).0)
  {
    CutTransferIsSentAgain(env, s, d);
  }

  /** A message, its confirmation cut short, and the confirmation again, under the seeded slot table:
      one action, two transfers. */
  lemma CutRunSendsTwice() returns (env: Env, es: seq<Event>)
    ensures |es| == 3 && es[0].Said? && es[0].m.metadata == SEEDED && IsCut(es[1], 0) && es[2].Decided?
    ensures SentTwice(GatewayRun(env, es).states[3]) && !EveryTransferSent(GatewayRun(env, es).states[3])
  {
    var m, d;
    env, m, d := AcceptedTransfer();
    es := [Said(m), Decided(d), Decided(d.(cut := false))];
    CutConfirmationSendsTwice(env, HandleMessage(env, EMPTY, m).0, d);
    GatewayThreeSteps(env, m, d, d.(cut := false));
    SentTwiceHasOrphan(GatewayRun(env, es).states[3]);
  }
}
