/** Agents confirm the payouts assigned to them, users transfer BIF, and the liquidity view sums
    what is still reserved. */
module Payouts {
  import opened Ledger
  import opened Options

  datatype AssignmentStatus = Assigned | ConfirmedByAgent | OtherStatus
  datatype Assignment = Assignment(agent: nat, order: nat, amount: real, status: AssignmentStatus)
  datatype OrderStatus = PaidOut | OtherOrderStatus

  /** Assignments are named by their position, orders by their id. */
  datatype Books = Books(journals: seq<Journal>, assignments: seq<Assignment>, orders: map<nat, OrderStatus>)

  datatype Reply = Done | AssignmentNotFound | NotAssigned | AmountNotPositive
    | PostingFailed(error: PostError) | CutShort

  function PayoutPostings(amount: real): seq<Posting> {
    [Posting(PayoutReserved, Debit, amount, Some(Bif)), Posting(PayoutsOut, Credit, amount, Some(Bif))]
  }

  function TransferPostings(payer: nat, payee: nat, amount: real): seq<Posting> {
    [Posting(WalletBif(payer), Credit, amount, Some(Bif)), Posting(WalletBif(payee), Debit, amount, Some(Bif))]
  }

  function MarkPaid(orders: map<nat, OrderStatus>, order: nat): map<nat, OrderStatus> {
    if order in orders then orders[order := PaidOut] else orders
  }

  /** The reserved amount of the liquidity view. */
  function Reserved(assignments: seq<Assignment>): real {
    if assignments == [] then 0.0
    else
      var last := assignments[|assignments| - 1];
      Reserved(assignments[..|assignments| - 1]) + if last.status == Assigned then last.amount else 0.0
  }

  ghost function ConfirmAssignment(
    accounts: Accounts, b: Books, id: nat, agent: nat, tx: nat, cut: bool): (Books, Reply) {
    if id >= |b.assignments| || b.assignments[id].agent != agent then (b, AssignmentNotFound)
    else if b.assignments[id].status != Assigned then (b, NotAssigned)
    else
      var a := b.assignments[id];
      match Post(accounts, b.journals, Some(tx), PayoutPostings(a.amount))
      case Rejected(error) => (b, PostingFailed(error))
      case Posted(journals) =>
        var committed := Books(journals, b.assignments[id := a.(status := ConfirmedByAgent)], b.orders);
        if cut then (committed, CutShort) else (committed.(orders := MarkPaid(b.orders, a.order)), Done)
  }

  ghost function TransferBif(accounts: Accounts, b: Books, payer: nat, payee: nat, amount: real): (Books, Reply) {
    if amount <= 0.0 then (b, AmountNotPositive)
    else match Post(accounts, b.journals, None, TransferPostings(payer, payee, amount))
      case Rejected(error) => (b, PostingFailed(error))
      case Posted(journals) => (b.(journals := journals), Done)
  }

  class Desk {
    const ledger: LedgerService
    var assignments: seq<Assignment>
    var orders: map<nat, OrderStatus>

    ghost function Contents(): Books
      reads this, ledger
    {
      Books(ledger.journals, assignments, orders)
    }

    constructor (ledger: LedgerService, assignments: seq<Assignment>, orders: map<nat, OrderStatus>)
      ensures this.ledger == ledger && Contents() == Books(ledger.journals, assignments, orders)
    {
      this.ledger, this.assignments, this.orders := ledger, assignments, orders;
    }

    /** Posting the journal commits what came before it; `cut` tells whether the request dies
        between that commit and the update of the order. */
    method Confirm(id: nat, agent: nat, tx: nat, cut: bool) returns (reply: Reply)
      modifies this, ledger
      ensures (Contents(), reply) == ConfirmAssignment(ledger.accounts, old(Contents()), id, agent, tx, cut)
    {
      if id >= |assignments| || assignments[id].agent != agent {
        return AssignmentNotFound;
      }
      var assignment := assignments[id];
      if assignment.status != Assigned {
        return NotAssigned;
      }
      assignments := assignments[id := assignment.(status := ConfirmedByAgent)];
      var outcome := ledger.PostJournal(Some(tx), PayoutPostings(assignment.amount));
      if outcome.Rejected? {
        assignments := assignments[id := assignment];
        assert assignments == old(assignments);
        return PostingFailed(outcome.error);
      }
      if cut {
        return CutShort;
      }
      orders := MarkPaid(orders, assignment.order);
      reply := Done;
    }

    method Transfer(payer: nat, payee: nat, amount: real) returns (reply: Reply)
      modifies ledger
      ensures (Contents(), reply) == TransferBif(ledger.accounts, old(Contents()), payer, payee, amount)
    {
      if amount <= 0.0 {
        return AmountNotPositive;
      }
      var outcome := ledger.PostJournal(None, TransferPostings(payer, payee, amount));
      reply := if outcome.Posted? then Done else PostingFailed(outcome.error);
    }
  }

  // ---------- Sums over the journals ----------

  /** What an entry adds to a sum. */
  type Weight = Entry -> real

  function Sum(entries: seq<Entry>, w: Weight): real {
    if entries == [] then 0.0 else Sum(entries[..|entries| - 1], w) + w(entries[|entries| - 1])
  }

  function SumAll(journals: seq<Journal>, w: Weight): real {
    if journals == [] then 0.0 else SumAll(journals[..|journals| - 1], w) + Sum(journals[|journals| - 1].entries, w)
  }

  function CreditsTo(account: Account): Weight {
    (e: Entry) => if e.account == account && e.direction == Credit then e.amount else 0.0
  }

  function Signed(e: Entry): real {
    if e.direction == Debit then e.amount else -e.amount
  }

  /** Debits minus credits: a wallet is worth what it was debited. */
  function BalanceOf(account: Account): Weight {
    (e: Entry) => if e.account == account then Signed(e) else 0.0
  }

  const WALLETS: Weight := (e: Entry) => if e.account.WalletBif? then Signed(e) else 0.0

  lemma OneMoreJournal(journals: seq<Journal>, j: Journal, w: Weight)
    ensures SumAll(journals + [j], w) == SumAll(journals, w) + Sum(j.entries, w)
  {
    assert (journals + [j])[..|journals|] == journals;
  }

  lemma OneMoreEntry(entries: seq<Entry>, e: Entry, w: Weight)
    ensures Sum(entries + [e], w) == Sum(entries, w) + w(e)
  {
    assert (entries + [e])[..|entries|] == entries;
  }

  lemma SumOfTwo(a: Entry, b: Entry, w: Weight)
    ensures Sum([a, b], w) == w(a) + w(b)
  {
    OneMoreEntry([], a, w);
    OneMoreEntry([a], b, w);
    assert [] + [a] == [a] && [a] + [b] == [a, b];
  }

  lemma TotalOfTwo(a: Entry, b: Entry, direction: Direction, c: Currency)
    requires a.currency == b.currency
    ensures TotalIn([a, b], direction, c)
      == if a.currency == c then Amount(a, direction) + Amount(b, direction) else 0.0
  {
    assert [a, b][..1] == [a] && [a][..0] == [];
    assert TotalIn([a], direction, c) == if a.currency == c then Amount(a, direction) else 0.0;
  }

  lemma PositiveTwo(p: Posting, q: Posting)
    ensures p.amount != 0.0 && q.amount != 0.0 ==> Positive([p, q]) == [p, q]
    ensures p.amount == 0.0 && q.amount == 0.0 ==> Positive([p, q]) == []
  {
    assert [p, q][..1] == [p] && [p][..0] == [];
    assert Positive([p]) == if p.amount == 0.0 then [] else [p];
  }

  ghost predicate Unused(journals: seq<Journal>, tx: Option<nat>) {
    tx.Some? ==> forall i :: 0 <= i < |journals| ==> journals[i].tx != tx
  }

  /** Two opposite postings of one amount in BIF are accepted when it is positive and both accounts
      are known, and then are the two entries of a new journal. */
  lemma PostTwo(accounts: Accounts, journals: seq<Journal>, tx: Option<nat>, p: Posting, q: Posting)
    requires Unused(journals, tx) && p.amount == q.amount && p.direction != q.direction
    requires p.currency == q.currency == Some(Bif)
    ensures var outcome := Post(accounts, journals, tx, [p, q]);
      && (outcome.Posted? <==> p.amount > 0.0 && p.account in accounts && q.account in accounts)
      && (outcome.Posted? ==> outcome.journals == journals + [Journal(tx, [
        Entry(p.account, p.direction, p.amount, Bif), Entry(q.account, q.direction, q.amount, Bif)])])
  {
    PositiveTwo(p, q);
    if p.amount < 0.0 {
      assert [p, q][0].amount < 0.0;
    } else if p.amount > 0.0 {
      if Known(accounts, [p, q]) {
        assert [p, q][0].account in accounts && [p, q][1].account in accounts;
        var a, b := Entry(p.account, p.direction, p.amount, Bif), Entry(q.account, q.direction, q.amount, Bif);
        assert Prepared(accounts, [p, q]) == [a, b];
        forall c ensures TotalIn([a, b], Debit, c) == TotalIn([a, b], Credit, c) {
          TotalOfTwo(a, b, Debit, c);
          TotalOfTwo(a, b, Credit, c);
        }
      }
    }
  }

  /** What such a posting adds to a sum over the journals. */
  lemma PostTwoSum(accounts: Accounts, journals: seq<Journal>, tx: Option<nat>, p: Posting, q: Posting, w: Weight)
    requires Unused(journals, tx) && p.amount == q.amount && p.direction != q.direction
    requires p.currency == q.currency == Some(Bif) && Post(accounts, journals, tx, [p, q]).Posted?
    ensures SumAll(Post(accounts, journals, tx, [p, q]).journals, w)
      == SumAll(journals, w) + w(Entry(p.account, p.direction, p.amount, Bif))
        + w(Entry(q.account, q.direction, q.amount, Bif))
  {
    var a, b := Entry(p.account, p.direction, p.amount, Bif), Entry(q.account, q.direction, q.amount, Bif);
    PostTwo(accounts, journals, tx, p, q);
    OneMoreJournal(journals, Journal(tx, [a, b]), w);
    SumOfTwo(a, b, w);
  }

  // ---------- Conservation ----------

  lemma {:induction false} ReservedAfter(assignments: seq<Assignment>, id: nat, status: AssignmentStatus)
    requires id < |assignments| && assignments[id].status == Assigned && status != Assigned
    ensures Reserved(assignments[id := assignments[id].(status := status)])
      == Reserved(assignments) - assignments[id].amount
  {
    var n := |assignments| - 1;
    var after := assignments[id := assignments[id].(status := status)];
    if id < n {
      ReservedAfter(assignments[..n], id, status);
      assert after[..n] == assignments[..n][id := assignments[id].(status := status)];
    } else {
      assert after[..n] == assignments[..n];
    }
  }

  datatype Event =
    | Confirms(id: nat, agent: nat, tx: nat, cut: bool)
    | Transfers(payer: nat, payee: nat, amount: real)

  ghost function Step(accounts: Accounts, b: Books, e: Event): Books {
    match e
    case Confirms(id, agent, tx, cut) => ConfirmAssignment(accounts, b, id, agent, tx, cut).0
    case Transfers(payer, payee, amount) => TransferBif(accounts, b, payer, payee, amount).0
  }

  ghost function Run(accounts: Accounts, b: Books, es: seq<Event>): Books {
    if es == [] then b else Step(accounts, Run(accounts, b, es[..|es| - 1]), es[|es| - 1])
  }

  /** The transaction id an event draws is new. */
  ghost predicate FreshId(b: Books, e: Event) {
    e.Confirms? ==> Unused(b.journals, Some(e.tx))
  }

  ghost predicate FreshIds(accounts: Accounts, b: Books, es: seq<Event>) {
    forall k :: 0 <= k < |es| ==> FreshId(Run(accounts, b, es[..k]), es[k])
  }

  /** Still reserved, plus everything ever credited to the outgoing payouts. */
  ghost function ReservedOrPaid(b: Books): real {
    Reserved(b.assignments) + SumAll(b.journals, CreditsTo(PayoutsOut))
  }

  lemma ConfirmConserves(accounts: Accounts, b: Books, id: nat, agent: nat, tx: nat, cut: bool)
    requires Unused(b.journals, Some(tx))
    ensures ReservedOrPaid(ConfirmAssignment(accounts, b, id, agent, tx, cut).0) == ReservedOrPaid(b)
  {
    if id < |b.assignments| && b.assignments[id].status == Assigned {
      var postings := PayoutPostings(b.assignments[id].amount);
      ReservedAfter(b.assignments, id, ConfirmedByAgent);
      if Post(accounts, b.journals, Some(tx), postings).Posted? {
        PostTwoSum(accounts, b.journals, Some(tx), postings[0], postings[1], CreditsTo(PayoutsOut));
      }
    }
  }

  lemma TransferKeepsCredits(accounts: Accounts, b: Books, payer: nat, payee: nat, amount: real)
    ensures ReservedOrPaid(TransferBif(accounts, b, payer, payee, amount).0) == ReservedOrPaid(b)
  {
    var postings := TransferPostings(payer, payee, amount);
    if amount > 0.0 && Post(accounts, b.journals, None, postings).Posted? {
      PostTwoSum(accounts, b.journals, None, postings[0], postings[1], CreditsTo(PayoutsOut));
    }
  }

  /** In any run of payouts and transfers, failed and cut ones included, what is reserved plus
      what was paid out stays the same. */
  lemma {:induction false} PayoutConservation(accounts: Accounts, b: Books, es: seq<Event>)
    requires FreshIds(accounts, b, es)
    ensures ReservedOrPaid(Run(accounts, b, es)) == ReservedOrPaid(b)
  {
    if es != [] {
      var n := |es| - 1;
      var before := Run(accounts, b, es[..n]);
      assert forall k :: 0 <= k < n ==> es[..n][..k] == es[..k];
      PayoutConservation(accounts, b, es[..n]);
      assert FreshId(before, es[n]);
      match es[n]
      case Confirms(id, agent, tx, cut) => ConfirmConserves(accounts, before, id, agent, tx, cut);
      case Transfers(payer, payee, amount) => TransferKeepsCredits(accounts, before, payer, payee, amount);
    }
  }

  /** Confirmations touch no wallet. */
  lemma ConfirmKeepsWallets(accounts: Accounts, b: Books, id: nat, agent: nat, tx: nat, cut: bool)
    requires Unused(b.journals, Some(tx))
    ensures SumAll(ConfirmAssignment(accounts, b, id, agent, tx, cut).0.journals, WALLETS)
      == SumAll(b.journals, WALLETS)
  {
    if id < |b.assignments| {
      var postings := PayoutPostings(b.assignments[id].amount);
      if Post(accounts, b.journals, Some(tx), postings).Posted? {
        PostTwoSum(accounts, b.journals, Some(tx), postings[0], postings[1], WALLETS);
      }
    }
  }

  lemma TransferKeepsWallets(accounts: Accounts, b: Books, payer: nat, payee: nat, amount: real)
    ensures SumAll(TransferBif(accounts, b, payer, payee, amount).0.journals, WALLETS) == SumAll(b.journals, WALLETS)
  {
    TransferMovesMoney(accounts, b, payer, payee, amount, PayoutReserved);
  }

  /** No run of payouts and transfers changes what all wallets hold together. */
  lemma {:induction false} WalletsKeepTheirSum(accounts: Accounts, b: Books, es: seq<Event>)
    requires FreshIds(accounts, b, es)
    ensures SumAll(Run(accounts, b, es).journals, WALLETS) == SumAll(b.journals, WALLETS)
  {
    if es != [] {
      var n := |es| - 1;
      var before := Run(accounts, b, es[..n]);
      assert forall k :: 0 <= k < n ==> es[..n][..k] == es[..k];
      WalletsKeepTheirSum(accounts, b, es[..n]);
      assert FreshId(before, es[n]);
      match es[n]
      case Confirms(id, agent, tx, cut) => ConfirmKeepsWallets(accounts, before, id, agent, tx, cut);
      case Transfers(payer, payee, amount) => TransferKeepsWallets(accounts, before, payer, payee, amount);
    }
  }

  // ---------- Who is paid, and when ----------

  /** Nobody but the agent of an assignment can do anything to it. */
  lemma OtherAgentsAreTurnedAway(accounts: Accounts, b: Books, id: nat, agent: nat, tx: nat, cut: bool)
    requires id < |b.assignments| ==> b.assignments[id].agent != agent
    ensures ConfirmAssignment(accounts, b, id, agent, tx, cut) == (b, AssignmentNotFound)
  {
  }

  /** The agent's own assignment that is no longer assigned is left alone. */
  lemma OnlyAssignedArePaid(accounts: Accounts, b: Books, id: nat, agent: nat, tx: nat, cut: bool)
    requires id < |b.assignments| && b.assignments[id].agent == agent && b.assignments[id].status != Assigned
    ensures ConfirmAssignment(accounts, b, id, agent, tx, cut) == (b, NotAssigned)
  {
  }

  /** With a new transaction id, the agent's own assigned payout goes through if and only if its amount is
      positive and both accounts are known; then the reserved account is debited, the outgoing one
      credited, the assignment confirmed and, unless the request is cut short, its order marked. */
  lemma AssignedIsPaid(accounts: Accounts, b: Books, id: nat, agent: nat, tx: nat, cut: bool)
    requires id < |b.assignments| && b.assignments[id].agent == agent && b.assignments[id].status == Assigned
    requires Unused(b.journals, Some(tx))
    ensures var (after, reply) := ConfirmAssignment(accounts, b, id, agent, tx, cut);
      var a := b.assignments[id];
      var payable := a.amount > 0.0 && PayoutReserved in accounts && PayoutsOut in accounts;
      && (reply == (if cut then CutShort else Done) <==> payable)
      && (!payable ==> reply.PostingFailed? && after == b)
      && (payable ==>
            && after.journals == b.journals + [Journal(Some(tx), [
                 Entry(PayoutReserved, Debit, a.amount, Bif), Entry(PayoutsOut, Credit, a.amount, Bif)])]
            && after.assignments == b.assignments[id := Assignment(agent, a.order, a.amount, ConfirmedByAgent)]
            && (cut || a.order !in b.orders ==> after.orders == b.orders)
            && (!cut && a.order in b.orders ==> after.orders == b.orders[a.order := PaidOut]))
  {
    var postings := PayoutPostings(b.assignments[id].amount);
    PostTwo(accounts, b.journals, Some(tx), postings[0], postings[1]);
  }

  // ---------- At most one payout ----------

  /** Event `k` of the run pays assignment `id`. */
  ghost predicate PaysAt(accounts: Accounts, b: Books, es: seq<Event>, k: nat, id: nat)
    requires k < |es|
  {
    && es[k].Confirms? && es[k].id == id
    && ConfirmAssignment(accounts, Run(accounts, b, es[..k]), id, es[k].agent, es[k].tx, es[k].cut).1
       in {Done, CutShort}
  }

  lemma StepKeepsConfirmed(accounts: Accounts, b: Books, e: Event, id: nat)
    requires id < |b.assignments|
    ensures id < |Step(accounts, b, e).assignments|
    ensures b.assignments[id].status == ConfirmedByAgent ==>
      Step(accounts, b, e).assignments[id].status == ConfirmedByAgent
  {
  }

  lemma {:induction false} AgentsStay(accounts: Accounts, b: Books, es: seq<Event>)
    ensures |Run(accounts, b, es).assignments| == |b.assignments|
    ensures forall id :: 0 <= id < |b.assignments| ==>
      Run(accounts, b, es).assignments[id].agent == b.assignments[id].agent
  {
    if es != [] {
      AgentsStay(accounts, b, es[..|es| - 1]);
    }
  }

  /** Every payment of a run was confirmed by the assignment's own agent. */
  lemma PaidByOwnAgent(accounts: Accounts, b: Books, es: seq<Event>, k: nat, id: nat)
    requires k < |es| && PaysAt(accounts, b, es, k, id)
    ensures id < |b.assignments| && es[k].agent == b.assignments[id].agent
  {
    AgentsStay(accounts, b, es[..k]);
  }

  lemma {:induction false} ConfirmedForever(accounts: Accounts, b: Books, es: seq<Event>, k: nat, id: nat)
    requires k <= |es| && id < |Run(accounts, b, es[..k]).assignments|
    requires Run(accounts, b, es[..k]).assignments[id].status == ConfirmedByAgent
    ensures id < |Run(accounts, b, es).assignments|
    ensures Run(accounts, b, es).assignments[id].status == ConfirmedByAgent
    decreases |es|
  {
    if k == |es| {
      assert es[..k] == es;
    } else {
      var n := |es| - 1;
      assert es[..n][..k] == es[..k];
      ConfirmedForever(accounts, b, es[..n], k, id);
      StepKeepsConfirmed(accounts, Run(accounts, b, es[..n]), es[n], id);
    }
  }

  /** An assignment is paid at most once. */
  lemma PaidAtMostOnce(accounts: Accounts, b: Books, es: seq<Event>, i: nat, j: nat, id: nat)
    requires i <= j < |es| && PaysAt(accounts, b, es, i, id) && PaysAt(accounts, b, es, j, id)
    ensures i == j
  {
    if i < j {
      assert es[..i + 1][..i] == es[..i];
      assert Run(accounts, b, es[..i + 1]).assignments[id].status == ConfirmedByAgent;
      assert es[..j][..i + 1] == es[..i + 1];
      ConfirmedForever(accounts, b, es[..j], i + 1, id);
    }
  }

  // ---------- Orders ----------

  ghost predicate OrdersPaid(b: Books) {
    forall id :: 0 <= id < |b.assignments| && b.assignments[id].status == ConfirmedByAgent
      && b.assignments[id].order in b.orders
      ==> b.orders[b.assignments[id].order] == PaidOut
  }

  /** A payment that went through marks its order unless the request was cut short after the
      journal was committed; the assignment is confirmed either way, so no retry will mark it. */
  lemma OrderIsPaidUnlessCut(accounts: Accounts, b: Books, id: nat, agent: nat, tx: nat, cut: bool, again: nat)
    requires ConfirmAssignment(accounts, b, id, agent, tx, cut).1 in {Done, CutShort}
    requires b.assignments[id].order in b.orders && b.orders[b.assignments[id].order] != PaidOut
    ensures var after := ConfirmAssignment(accounts, b, id, agent, tx, cut).0;
      && (after.orders[b.assignments[id].order] == PaidOut <==> !cut)
      && ConfirmAssignment(accounts, after, id, agent, again, false) == (after, NotAssigned)
  {
  }

  /** In a run without such cuts every confirmed assignment's order is paid out. */
  lemma {:induction false} ConfirmedOrdersArePaid(accounts: Accounts, b: Books, es: seq<Event>)
    requires OrdersPaid(b) && forall k :: 0 <= k < |es| ==> !(es[k].Confirms? && es[k].cut)
    ensures OrdersPaid(Run(accounts, b, es))
  {
    if es != [] {
      ConfirmedOrdersArePaid(accounts, b, es[..|es| - 1]);
    }
  }

  /** Some request of the run paid an assignment of `order`, and was not cut short. */
  ghost predicate Settled(accounts: Accounts, b: Books, es: seq<Event>, order: nat) {
    exists k: nat :: k < |es| && SettlesAt(accounts, b, es, k, order)
  }

  ghost predicate SettlesAt(accounts: Accounts, b: Books, es: seq<Event>, k: nat, order: nat)
    requires k < |es|
  {
    && es[k].Confirms? && !es[k].cut && es[k].id < |b.assignments| && b.assignments[es[k].id].order == order
    && PaysAt(accounts, b, es, k, es[k].id)
  }

  lemma {:induction false} AssignmentsStay(accounts: Accounts, b: Books, es: seq<Event>)
    ensures var after := Run(accounts, b, es);
      && after.orders.Keys == b.orders.Keys && |after.assignments| == |b.assignments|
      && forall id :: 0 <= id < |b.assignments| ==> after.assignments[id].order == b.assignments[id].order
  {
    if es != [] {
      AssignmentsStay(accounts, b, es[..|es| - 1]);
    }
  }

  /** What the last event of a run adds to the orders it settles. */
  lemma SettledByLast(accounts: Accounts, b: Books, es: seq<Event>, order: nat)
    requires es != []
    ensures Settled(accounts, b, es, order) <==>
      Settled(accounts, b, es[..|es| - 1], order) || SettlesAt(accounts, b, es, |es| - 1, order)
  {
    var n := |es| - 1;
    forall k: nat | k < n
      ensures SettlesAt(accounts, b, es, k, order) <==> SettlesAt(accounts, b, es[..n], k, order)
    {
      assert es[..n][..k] == es[..k] && es[..n][k] == es[k];
    }
    if Settled(accounts, b, es[..n], order) {
      var k: nat :| k < n && SettlesAt(accounts, b, es[..n], k, order);
      assert SettlesAt(accounts, b, es, k, order);
    }
  }

  lemma StepPaysOrder(accounts: Accounts, b: Books, e: Event, order: nat)
    requires order in b.orders
    ensures order in Step(accounts, b, e).orders
    ensures Step(accounts, b, e).orders[order] == PaidOut <==>
      b.orders[order] == PaidOut
      || (e.Confirms? && !e.cut && e.id < |b.assignments| && b.assignments[e.id].order == order
          && ConfirmAssignment(accounts, b, e.id, e.agent, e.tx, e.cut).1 in {Done, CutShort})
  {
  }

  /** An order ends up paid out if and only if it was at first or some request of the run paid it
      without being cut short. */
  lemma {:induction false} OrderIsPaidIffSettled(accounts: Accounts, b: Books, es: seq<Event>, order: nat)
    requires order in b.orders
    ensures order in Run(accounts, b, es).orders
    ensures Run(accounts, b, es).orders[order] == PaidOut <==>
      b.orders[order] == PaidOut || Settled(accounts, b, es, order)
  {
    if es != [] {
      var n := |es| - 1;
      OrderIsPaidIffSettled(accounts, b, es[..n], order);
      AssignmentsStay(accounts, b, es[..n]);
      SettledByLast(accounts, b, es, order);
      StepPaysOrder(accounts, Run(accounts, b, es[..n]), es[n], order);
    }
  }

  /** Event `k` paid an assignment but was cut short, and nothing else paid its order. */
  ghost predicate LeavesUnpaid(accounts: Accounts, b: Books, es: seq<Event>, k: nat)
    requires k < |es|
  {
    && es[k].Confirms? && es[k].id < |b.assignments| && es[k].cut && PaysAt(accounts, b, es, k, es[k].id)
    && var order := b.assignments[es[k].id].order;
       order in b.orders && b.orders[order] != PaidOut && !Settled(accounts, b, es, order)
  }

  /** A confirmed assignment was confirmed at first or paid by some event of the run. */
  lemma {:induction false} ConfirmedWasPaid(accounts: Accounts, b: Books, es: seq<Event>, id: nat) returns (k: nat)
    requires id < |b.assignments| && id < |Run(accounts, b, es).assignments|
    requires Run(accounts, b, es).assignments[id].status == ConfirmedByAgent
    requires b.assignments[id].status != ConfirmedByAgent
    ensures k < |es| && PaysAt(accounts, b, es, k, id)
  {
    var n := |es| - 1;
    AssignmentsStay(accounts, b, es[..n]);
    if Run(accounts, b, es[..n]).assignments[id].status == ConfirmedByAgent {
      k := ConfirmedWasPaid(accounts, b, es[..n], id);
      assert es[..n][..k] == es[..k] && es[..n][k] == es[k];
    } else {
      k := n;
    }
  }

  /** In any run, every confirmed assignment's order is paid out if and only if no payment that was cut
      short left its order unpaid. */
  lemma OrdersPaidIff(accounts: Accounts, b: Books, es: seq<Event>)
    requires OrdersPaid(b)
    ensures OrdersPaid(Run(accounts, b, es)) <==> forall k: nat :: k < |es| ==> !LeavesUnpaid(accounts, b, es, k)
  {
    var after := Run(accounts, b, es);
    AssignmentsStay(accounts, b, es);
    if k: nat :| k < |es| && LeavesUnpaid(accounts, b, es, k) {
      var id := es[k].id;
      OrderIsPaidIffSettled(accounts, b, es, b.assignments[id].order);
      PaidIsConfirmed(accounts, b, es, k, id);
    } else {
      forall id | 0 <= id < |after.assignments| && after.assignments[id].status == ConfirmedByAgent
          && after.assignments[id].order in after.orders
        ensures after.orders[after.assignments[id].order] == PaidOut
      {
        ConfirmedIsPaid(accounts, b, es, id);
      }
    }
  }

  lemma PaidIsConfirmed(accounts: Accounts, b: Books, es: seq<Event>, k: nat, id: nat)
    requires k < |es| && PaysAt(accounts, b, es, k, id)
    ensures id < |Run(accounts, b, es).assignments|
    ensures Run(accounts, b, es).assignments[id].status == ConfirmedByAgent
  {
    assert es[..k + 1][..k] == es[..k];
    assert Run(accounts, b, es[..k + 1]).assignments[id].status == ConfirmedByAgent;
    ConfirmedForever(accounts, b, es, k + 1, id);
  }

  lemma ConfirmedIsPaid(accounts: Accounts, b: Books, es: seq<Event>, id: nat)
    requires OrdersPaid(b) && forall k: nat :: k < |es| ==> !LeavesUnpaid(accounts, b, es, k)
    requires id < |b.assignments| && id < |Run(accounts, b, es).assignments|
    requires Run(accounts, b, es).assignments[id].status == ConfirmedByAgent
    requires b.assignments[id].order in b.orders
    ensures b.assignments[id].order in Run(accounts, b, es).orders
    ensures Run(accounts, b, es).orders[b.assignments[id].order] == PaidOut
  {
    var order := b.assignments[id].order;
    OrderIsPaidIffSettled(accounts, b, es, order);
    if b.assignments[id].status != ConfirmedByAgent {
      var k := ConfirmedWasPaid(accounts, b, es, id);
      assert !LeavesUnpaid(accounts, b, es, k);
      assert !es[k].cut ==> SettlesAt(accounts, b, es, k, order);
    }
  }

  // ---------- Balanced books ----------

  /** No run of transfers and payouts unbalances a journal. */
  lemma {:induction false} BooksStayBalanced(accounts: Accounts, b: Books, es: seq<Event>)
    requires UnbalancedCount(b.journals) == 0
    ensures UnbalancedCount(Run(accounts, b, es).journals) == 0
  {
    if es != [] {
      var n := |es| - 1;
      var before := Run(accounts, b, es[..n]);
      BooksStayBalanced(accounts, b, es[..n]);
      match es[n]
      case Confirms(id, agent, tx, cut) =>
        if id < |before.assignments| {
          PostKeepsBalance(accounts, before.journals, Some(tx), PayoutPostings(before.assignments[id].amount));
        }
      case Transfers(payer, payee, amount) =>
        PostKeepsBalance(accounts, before.journals, None, TransferPostings(payer, payee, amount));
    }
  }

  /** A transfer that goes through moves the amount from the payer's wallet to the payee's, which
      cancels out on a transfer to oneself, and leaves the sum over all wallets and every other
      account alone; it goes through exactly for a positive amount between known wallets. */
  lemma TransferMovesMoney(accounts: Accounts, b: Books, payer: nat, payee: nat, amount: real, account: Account)
    ensures var (after, reply) := TransferBif(accounts, b, payer, payee, amount);
      && (reply == Done <==> amount > 0.0 && WalletBif(payer) in accounts && WalletBif(payee) in accounts)
      && (reply == AmountNotPositive <==> amount <= 0.0) && (reply != Done ==> after == b)
      && SumAll(after.journals, WALLETS) == SumAll(b.journals, WALLETS)
      && SumAll(after.journals, BalanceOf(account)) == SumAll(b.journals, BalanceOf(account))
        + (if reply == Done && account == WalletBif(payee) then amount else 0.0)
        - (if reply == Done && account == WalletBif(payer) then amount else 0.0)
  {
    var postings := TransferPostings(payer, payee, amount);
    if amount > 0.0 {
      PostTwo(accounts, b.journals, None, postings[0], postings[1]);
      if Post(accounts, b.journals, None, postings).Posted? {
        PostTwoSum(accounts, b.journals, None, postings[0], postings[1], WALLETS);
        PostTwoSum(accounts, b.journals, None, postings[0], postings[1], BalanceOf(account));
      }
    }
  }
}
