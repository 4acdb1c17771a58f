/** Double-entry postings, the BIF transfer and the agent payout that use them, and the reserved
    amount the liquidity view reports. Amounts are exact. */
module Ledger {
  import opened Options

  datatype Account = WalletBif(user: nat) | PayoutReserved | PayoutsOut | OtherAccount(code: nat)
  datatype Currency = Bif | Usd | OtherCurrency(code: nat)
  datatype Direction = Debit | Credit

  datatype Posting = Posting(account: Account, direction: Direction, amount: real, currency: Option<Currency>)
  datatype Entry = Entry(account: Account, direction: Direction, amount: real, currency: Currency)
  datatype Journal = Journal(tx: Option<nat>, entries: seq<Entry>)

  /** The accounts with their own currency, if set, and the journals. */
  type Accounts = map<Account, Option<Currency>>

  datatype PostError = NegativeAmount | NothingToPost | UnknownAccount | UnbalancedPostings

  datatype Outcome = Posted(journals: seq<Journal>) | Rejected(error: PostError)

  // ---------- Sums ----------

  function Amount(e: Entry, direction: Direction): real {
    if e.direction == direction then e.amount else 0.0
  }

  function Total(entries: seq<Entry>, direction: Direction): real {
    if entries == [] then 0.0
    else Total(entries[..|entries| - 1], direction) + Amount(entries[|entries| - 1], direction)
  }

  function TotalIn(entries: seq<Entry>, direction: Direction, currency: Currency): real {
    if entries == [] then 0.0
    else
      var last := entries[|entries| - 1];
      TotalIn(entries[..|entries| - 1], direction, currency)
      + if last.currency == currency then Amount(last, direction) else 0.0
  }

  ghost predicate BalancedByCurrency(entries: seq<Entry>) {
    forall c :: TotalIn(entries, Debit, c) == TotalIn(entries, Credit, c)
  }

  predicate Balanced(entries: seq<Entry>) {
    Total(entries, Debit) == Total(entries, Credit)
  }

  /** The query of the health check. */
  function UnbalancedCount(journals: seq<Journal>): nat {
    if journals == [] then 0
    else
      UnbalancedCount(journals[..|journals| - 1])
      + if Balanced(journals[|journals| - 1].entries) then 0 else 1
  }

  // ---------- Posting a journal ----------

  function Positive(postings: seq<Posting>): seq<Posting> {
    if postings == [] then []
    else
      var last := postings[|postings| - 1];
      Positive(postings[..|postings| - 1]) + if last.amount == 0.0 then [] else [last]
  }

  /** The currency of a posting, else of its account, else US dollars. */
  function CurrencyOf(accounts: Accounts, p: Posting): Currency
    requires p.account in accounts
  {
    if p.currency.Some? then p.currency.value
    else if accounts[p.account].Some? then accounts[p.account].value
    else Usd
  }

  function ToEntry(accounts: Accounts, p: Posting): Entry
    requires p.account in accounts
  {
    Entry(p.account, p.direction, p.amount, CurrencyOf(accounts, p))
  }

  predicate Known(accounts: Accounts, postings: seq<Posting>) {
    forall i :: 0 <= i < |postings| ==> postings[i].account in accounts
  }

  function Prepared(accounts: Accounts, postings: seq<Posting>): seq<Entry>
    requires Known(accounts, postings)
  {
    seq(|postings|, i requires 0 <= i < |postings| => ToEntry(accounts, postings[i]))
  }

  /** The journal that already carries the transaction id; no journal carries the null one. */
  function Existing(journals: seq<Journal>, tx: Option<nat>): (found: Option<nat>)
    ensures found.Some? ==> tx.Some? && found.value < |journals| && journals[found.value].tx == tx
    ensures found.None? && tx.Some? ==> forall i :: 0 <= i < |journals| ==> journals[i].tx != tx
  {
    if journals == [] || tx.None? then None
    else
      match Existing(journals[..|journals| - 1], tx)
      case Some(i) => Some(i)
      case None => if journals[|journals| - 1].tx == tx then Some(|journals| - 1) else None
  }

  function Inserted(journals: seq<Journal>, tx: Option<nat>, entries: seq<Entry>): seq<Journal> {
    match Existing(journals, tx)
    case None => journals + [Journal(tx, entries)]
    case Some(i) => journals[i := Journal(tx, journals[i].entries + entries)]
  }

  ghost function Post(accounts: Accounts, journals: seq<Journal>, tx: Option<nat>, postings: seq<Posting>): Outcome {
    var positive := Positive(postings);
    var existing := Existing(journals, tx);
    if exists i :: 0 <= i < |postings| && postings[i].amount < 0.0 then Rejected(NegativeAmount)
    else if positive == [] then Rejected(NothingToPost)
    else if existing.Some? && journals[existing.value].entries != [] then Posted(journals)
    else if !Known(accounts, positive) then Rejected(UnknownAccount)
    else if !BalancedByCurrency(Prepared(accounts, positive)) then Rejected(UnbalancedPostings)
    else Posted(Inserted(journals, tx, Prepared(accounts, positive)))
  }

  // ---------- What a post records ----------

  lemma PositiveOfOne(p: Posting)
    ensures Positive([p]) == if p.amount == 0.0 then [] else [p]
  {
    assert [p][..0] == [];
  }

  lemma PositiveOfOneMore(postings: seq<Posting>, p: Posting)
    ensures Positive(postings + [p]) == Positive(postings) + Positive([p])
  {
    PositiveOfOne(p);
    assert (postings + [p])[..|postings|] == postings;
  }

  /** Dropping zero amounts keeps the rest, in order. */
  lemma {:induction false} PositiveOfParts(front: seq<Posting>, back: seq<Posting>)
    ensures Positive(front + back) == Positive(front) + Positive(back)
  {
    if back == [] {
      assert front + back == front;
    } else {
      var n := |back| - 1;
      PositiveOfParts(front, back[..n]);
      PositiveOfOneMore(front + back[..n], back[n]);
      PositiveOfOneMore(back[..n], back[n]);
      assert front + back == front + back[..n] + [back[n]] && back == back[..n] + [back[n]];
    }
  }

  lemma {:induction false} PositiveKeepsAll(postings: seq<Posting>)
    requires forall i :: 0 <= i < |postings| ==> postings[i].amount > 0.0
    ensures Positive(postings) == postings
  {
    if postings != [] {
      PositiveKeepsAll(postings[..|postings| - 1]);
    }
  }

  /** Entry `e` records posting `p`: its account, side and amount, in its currency, else the account's,
      else US dollars. */
  ghost predicate RecordsPosting(accounts: Accounts, e: Entry, p: Posting) {
    && e.account == p.account && e.direction == p.direction && e.amount == p.amount && p.account in accounts
    && (p.currency.Some? ==> e.currency == p.currency.value)
    && (p.currency.None? && accounts[p.account].Some? ==> e.currency == accounts[p.account].value)
    && (p.currency.None? && accounts[p.account].None? ==> e.currency == Usd)
  }

  /** Positive postings under a new transaction id are recorded one by one in a new journal. */
  lemma PostRecords(accounts: Accounts, journals: seq<Journal>, tx: Option<nat>, postings: seq<Posting>)
    requires forall i :: 0 <= i < |postings| ==> postings[i].amount > 0.0
    requires tx.Some? ==> forall i :: 0 <= i < |journals| ==> journals[i].tx != tx
    requires Post(accounts, journals, tx, postings).Posted?
    ensures var after := Post(accounts, journals, tx, postings).journals;
      && |after| == |journals| + 1 && after[..|journals|] == journals && after[|journals|].tx == tx
      && |after[|journals|].entries| == |postings|
      && forall i :: 0 <= i < |postings| ==> RecordsPosting(accounts, after[|journals|].entries[i], postings[i])
  {
    PositiveKeepsAll(postings);
  }

  /** Why a post is turned away: a negative amount; nothing but zero amounts; then, unless the transaction
      id already carries entries, an unknown account among the positive postings. */
  lemma PostIsTurnedAway(accounts: Accounts, journals: seq<Journal>, tx: Option<nat>, postings: seq<Posting>)
    requires tx.Some? ==> forall i :: 0 <= i < |journals| ==> journals[i].tx != tx
    ensures var outcome := Post(accounts, journals, tx, postings);
      var negative := exists i :: 0 <= i < |postings| && postings[i].amount < 0.0;
      var empty := forall i :: 0 <= i < |postings| ==> postings[i].amount == 0.0;
      var unknown := exists i :: 0 <= i < |postings| && postings[i].amount > 0.0 && postings[i].account !in accounts;
      && (outcome == Rejected(NegativeAmount) <==> negative)
      && (outcome == Rejected(NothingToPost) <==> !negative && empty)
      && (outcome == Rejected(UnknownAccount) <==> !negative && !empty && unknown)
  {
    PositiveHoldsNonzero(postings);
    if (forall i :: 0 <= i < |postings| ==> postings[i].amount == 0.0) && Positive(postings) != [] {
      assert Positive(postings)[0] in Positive(postings);
    }
    if i :| 0 <= i < |postings| && postings[i].amount > 0.0 && postings[i].account !in accounts {
      assert postings[i] in Positive(postings);
    }
    if !Known(accounts, Positive(postings)) {
      var k :| 0 <= k < |Positive(postings)| && Positive(postings)[k].account !in accounts;
      assert Positive(postings)[k] in Positive(postings);
    }
  }

  lemma {:induction false} PositiveHoldsNonzero(postings: seq<Posting>)
    ensures forall p :: p in Positive(postings) <==> p in postings && p.amount != 0.0
  {
    if postings != [] {
      var n := |postings| - 1;
      PositiveHoldsNonzero(postings[..n]);
      assert postings == postings[..n] + [postings[n]];
    }
  }

  lemma PairTotals(a: Entry, b: Entry, direction: Direction, c: Currency)
    ensures TotalIn([a, b], direction, c)
      == (if a.currency == c then Amount(a, direction) else 0.0)
        + (if b.currency == c then Amount(b, direction) else 0.0)
  {
    assert [a, b][..1] == [a] && [a][..0] == [];
    assert TotalIn([a], direction, c) == if a.currency == c then Amount(a, direction) else 0.0;
  }

  /** Two postings of positive amounts balance exactly when they are of one amount and one currency, on
      opposite sides; else they are turned away. */
  lemma PairIsPostedIff(accounts: Accounts, journals: seq<Journal>, p: Posting, q: Posting)
    requires p.amount > 0.0 && q.amount > 0.0 && p.account in accounts && q.account in accounts
    requires p.currency.Some? && q.currency.Some?
    ensures var outcome := Post(accounts, journals, None, [p, q]);
      && (outcome.Posted? <==> p.amount == q.amount && p.currency == q.currency && p.direction != q.direction)
      && (!outcome.Posted? ==> outcome == Rejected(UnbalancedPostings))
  {
    var a, b := ToEntry(accounts, p), ToEntry(accounts, q);
    PositiveKeepsAll([p, q]);
    assert Prepared(accounts, [p, q]) == [a, b];
    forall direction: Direction, c: Currency
      ensures TotalIn([a, b], direction, c)
        == (if a.currency == c then Amount(a, direction) else 0.0)
          + (if b.currency == c then Amount(b, direction) else 0.0)
    {
      PairTotals(a, b, direction, c);
    }
    assert BalancedByCurrency([a, b]) ==>
      TotalIn([a, b], Debit, a.currency) == TotalIn([a, b], Credit, a.currency);
  }

  // ---------- Balance of the books ----------

  function Without(entries: seq<Entry>, c: Currency): (rest: seq<Entry>)
    ensures |rest| <= |entries|
  {
    if entries == [] then []
    else
      var last := entries[|entries| - 1];
      Without(entries[..|entries| - 1], c) + if last.currency == c then [] else [last]
  }

  lemma TotalOfOneMore(entries: seq<Entry>, e: Entry, direction: Direction)
    ensures Total(entries + [e], direction) == Total(entries, direction) + Amount(e, direction)
    ensures forall c ::
      TotalIn(entries + [e], direction, c)
        == TotalIn(entries, direction, c) + (if e.currency == c then Amount(e, direction) else 0.0)
  {
    assert (entries + [e])[..|entries|] == entries;
  }

  /** Leaving out a currency leaves out its total. */
  lemma {:induction false} WithoutSplits(entries: seq<Entry>, c: Currency, direction: Direction)
    ensures Total(entries, direction) == TotalIn(entries, direction, c) + Total(Without(entries, c), direction)
  {
    if entries != [] {
      var n := |entries| - 1;
      WithoutSplits(entries[..n], c, direction);
      TotalOfOneMore(Without(entries[..n], c), entries[n], direction);
      assert Without(entries[..n], c) + [] == Without(entries[..n], c);
    }
  }

  /** And no other. */
  lemma {:induction false} WithoutKeepsOthers(entries: seq<Entry>, c: Currency, direction: Direction, d: Currency)
    ensures TotalIn(Without(entries, c), direction, d) == if d == c then 0.0 else TotalIn(entries, direction, d)
  {
    if entries != [] {
      var n := |entries| - 1;
      WithoutKeepsOthers(entries[..n], c, direction, d);
      TotalOfOneMore(Without(entries[..n], c), entries[n], direction);
      assert Without(entries[..n], c) + [] == Without(entries[..n], c);
    }
  }

  lemma {:induction false} WithoutIsShorter(entries: seq<Entry>, i: nat)
    requires i < |entries|
    ensures |Without(entries, entries[i].currency)| < |entries|
  {
    if i < |entries| - 1 {
      WithoutIsShorter(entries[..|entries| - 1], i);
    }
  }

  /** Postings balanced in each currency are balanced as the health check sums them, over all. */
  lemma {:induction false} BalancedByCurrencyIsBalanced(entries: seq<Entry>)
    requires BalancedByCurrency(entries)
    ensures Balanced(entries)
    decreases |entries|
  {
    if entries != [] {
      var c := entries[0].currency;
      WithoutSplits(entries, c, Debit);
      WithoutSplits(entries, c, Credit);
      forall d ensures TotalIn(Without(entries, c), Debit, d) == TotalIn(Without(entries, c), Credit, d) {
        WithoutKeepsOthers(entries, c, Debit, d);
        WithoutKeepsOthers(entries, c, Credit, d);
      }
      WithoutIsShorter(entries, 0);
      BalancedByCurrencyIsBalanced(Without(entries, c));
    }
  }

  lemma {:induction false} NoneUnbalanced(journals: seq<Journal>)
    ensures UnbalancedCount(journals) == 0 <==> forall i :: 0 <= i < |journals| ==> Balanced(journals[i].entries)
  {
    if journals != [] {
      NoneUnbalanced(journals[..|journals| - 1]);
    }
  }

  /** Posting never unbalances the books. */
  lemma PostKeepsBalance(accounts: Accounts, journals: seq<Journal>, tx: Option<nat>, postings: seq<Posting>)
    requires UnbalancedCount(journals) == 0
    ensures var outcome := Post(accounts, journals, tx, postings);
      outcome.Posted? ==> UnbalancedCount(outcome.journals) == 0
  {
    var outcome := Post(accounts, journals, tx, postings);
    if outcome.Posted? {
      NoneUnbalanced(journals);
      NoneUnbalanced(outcome.journals);
      if outcome.journals != journals {
        var entries := Prepared(accounts, Positive(postings));
        BalancedByCurrencyIsBalanced(entries);
        assert [] + entries == entries;
      }
    }
  }

  /** A transaction id that is already posted is posted only once. */
  lemma PostIsIdempotent(accounts: Accounts, journals: seq<Journal>, tx: nat, postings: seq<Posting>)
    requires Post(accounts, journals, Some(tx), postings).Posted?
    ensures var once := Post(accounts, journals, Some(tx), postings).journals;
      Post(accounts, once, Some(tx), postings) == Posted(once)
  {
    var once := Post(accounts, journals, Some(tx), postings).journals;
    if once != journals {
      FoundAfterInsert(journals, tx, Prepared(accounts, Positive(postings)));
    }
  }

  lemma FoundAfterInsert(journals: seq<Journal>, tx: nat, entries: seq<Entry>)
    requires entries != []
    ensures var after := Inserted(journals, Some(tx), entries);
      var found := Existing(after, Some(tx));
      found.Some? && after[found.value].entries != []
  {
    var after := Inserted(journals, Some(tx), entries);
    match Existing(journals, Some(tx))
    case None =>
      assert after[..|journals|] == journals;
    case Some(i) =>
      FirstWithId(journals, tx);
      FirstWithId(after, tx);
      assert after[i].tx == Some(tx);
  }

  lemma {:induction false} FirstWithId(journals: seq<Journal>, tx: nat)
    ensures var found := Existing(journals, Some(tx));
      && (found.Some? ==> forall j :: 0 <= j < found.value ==> journals[j].tx != Some(tx))
      && (found.None? <==> forall j :: 0 <= j < |journals| ==> journals[j].tx != Some(tx))
  {
    if journals != [] {
      FirstWithId(journals[..|journals| - 1], tx);
    }
  }

  // ---------- Books in the code ----------

  type Buckets = map<Currency, (real, real)>

  class LedgerService {
    const accounts: Accounts
    var journals: seq<Journal>

    constructor (accounts: Accounts)
      ensures this.accounts == accounts && journals == []
    {
      this.accounts := accounts;
      journals := [];
    }

    static method NormalizePostings(postings: seq<Posting>) returns (normalized: seq<Posting>, ok: bool)
      ensures ok <==> forall i :: 0 <= i < |postings| ==> postings[i].amount >= 0.0
      ensures ok ==> normalized == Positive(postings)
    {
      normalized := [];
      for i := 0 to |postings|
        invariant forall j :: 0 <= j < i ==> postings[j].amount >= 0.0
        invariant normalized == Positive(postings[..i])
      {
        assert postings[..i + 1][..i] == postings[..i];
        if postings[i].amount < 0.0 {
          return normalized, false;
        }
        if postings[i].amount != 0.0 {
          normalized := normalized + [postings[i]];
        }
      }
      assert postings[..|postings|] == postings;
      ok := true;
    }

    /** The debit and credit sums per currency. */
    static method SumByCurrency(entries: seq<Entry>) returns (buckets: Buckets)
      ensures forall c :: c in buckets ==> buckets[c] == (TotalIn(entries, Debit, c), TotalIn(entries, Credit, c))
      ensures forall c :: c !in buckets ==> TotalIn(entries, Debit, c) == TotalIn(entries, Credit, c) == 0.0
    {
      buckets := map[];
      for i := 0 to |entries|
        invariant forall c :: c in buckets ==>
          buckets[c] == (TotalIn(entries[..i], Debit, c), TotalIn(entries[..i], Credit, c))
        invariant forall c :: c !in buckets ==>
          TotalIn(entries[..i], Debit, c) == TotalIn(entries[..i], Credit, c) == 0.0
      {
        assert entries[..i + 1][..i] == entries[..i];
        var e := entries[i];
        var (debit, credit) := if e.currency in buckets then buckets[e.currency] else (0.0, 0.0);
        buckets := buckets[e.currency := (debit + Amount(e, Debit), credit + Amount(e, Credit))];
      }
      assert entries[..|entries|] == entries;
    }

    static method IsBalanced(entries: seq<Entry>) returns (balanced: bool)
      ensures balanced <==> BalancedByCurrency(entries)
    {
      var buckets := SumByCurrency(entries);
      balanced := forall c :: c in buckets ==> buckets[c].0 == buckets[c].1;
    }

    method PrepareEntries(postings: seq<Posting>) returns (prepared: seq<Entry>, ok: bool)
      ensures ok == Known(accounts, postings)
      ensures ok ==> prepared == Prepared(accounts, postings)
    {
      prepared := [];
      for i := 0 to |postings|
        invariant |prepared| == i && Known(accounts, postings[..i])
        invariant forall j :: 0 <= j < i ==>
          postings[j].account in accounts && prepared[j] == ToEntry(accounts, postings[j])
      {
        if postings[i].account !in accounts {
          return prepared, false;
        }
        prepared := prepared + [ToEntry(accounts, postings[i])];
      }
      ok := true;
    }

    method PostJournal(tx: Option<nat>, postings: seq<Posting>) returns (outcome: Outcome)
      modifies this
      ensures outcome == Post(accounts, old(journals), tx, postings)
      ensures journals == if outcome.Posted? then outcome.journals else old(journals)
    {
      var normalized, valid := NormalizePostings(postings);
      if !valid {
        return Rejected(NegativeAmount);
      }
      if normalized == [] {
        return Rejected(NothingToPost);
      }
      var existing := Existing(journals, tx);
      if existing.Some? && journals[existing.value].entries != [] {
        return Posted(journals);
      }
      var prepared, known := PrepareEntries(normalized);
      if !known {
        return Rejected(UnknownAccount);
      }
      var balanced := IsBalanced(prepared);
      if !balanced {
        return Rejected(UnbalancedPostings);
      }
      journals := Inserted(journals, tx, prepared);
      outcome := Posted(journals);
    }
  }
}
