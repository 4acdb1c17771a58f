/** The rate limiter: one counter per group, address and minute, kept in a store that drops a
    key when its expiry has passed. The increment and the expiry are two commands: a request may be cut
    short between them. */
module RateLimit {
  import opened Options

  datatype Group = Default | Auth | Admin | P2pWrite | Webhook

  /** The caller as the limiter sees it: a group of paths and an address. */
  datatype Client = Client(group: Group, ip: nat)
  datatype Key = Key(client: Client, minute: int)
  /** Without an expiry, a counter stays for good. */
  datatype Counter = Counter(count: nat, expiresAt: Option<real>)
  type Store = map<Key, Counter>

  const WINDOW: real := 60.0
  const EXPIRY: real := 70.0

  function Minute(now: real): int {
    (now / WINDOW).Floor
  }

  /** The keys a store still holds at time `now`. */
  function Live(store: Store, now: real): Store {
    map k | k in store && (store[k].expiresAt.Some? ==> now < store[k].expiresAt.value) :: store[k]
  }

  /** `limits.get(group, limits.get("default", 60))`. */
  function LimitOf(limits: map<Group, int>, group: Group): int {
    if group in limits then limits[group] else if Default in limits then limits[Default] else 60
  }

  function Count(store: Store, key: Key): nat {
    if key in store then store[key].count else 0
  }

  function Incremented(store: Store, key: Key, now: real, cut: bool): Store {
    var count := Count(store, key) + 1;
    var expiresAt := if key in store then store[key].expiresAt else None;
    store[key := Counter(count, if count == 1 && !cut then Some(now + EXPIRY) else expiresAt)]
  }

  /** `cut` tells whether the request dies right after the increment. */
  datatype Request = Request(client: Client, at: real, limit: int, cut: bool)

  function KeyOf(r: Request): Key {
    Key(r.client, Minute(r.at))
  }

  function After(store: Store, r: Request): Store {
    Incremented(Live(store, r.at), KeyOf(r), r.at, r.cut)
  }

  predicate Passes(store: Store, r: Request) {
    !r.cut && Count(After(store, r), KeyOf(r)) <= r.limit
  }

  class Limiter {
    var store: Store
    var limits: map<Group, int>

    constructor (limits: map<Group, int>)
      ensures store == map[] && this.limits == limits
    {
      store := map[];
      this.limits := limits;
    }

    /** Preflight requests, and all requests when there is no store, are `exempt`. */
    method Dispatch(client: Client, now: real, exempt: bool, cut: bool) returns (passes: bool)
      modifies this`store
      ensures var r := Request(client, now, LimitOf(limits, client.group), cut);
        if exempt then passes && store == old(store)
        else store == After(old(store), r) && passes == Passes(old(store), r)
    {
      if exempt {
        return true;
      }
      var key := Key(client, Minute(now));
      store := Live(store, now);
      var count := Count(store, key) + 1;
      store := store[key := Counter(count, if key in store then store[key].expiresAt else None)];
      if cut {
        return false;
      }
      if count == 1 {
        store := store[key := Counter(1, Some(now + EXPIRY))];
      }
      passes := count <= LimitOf(limits, client.group);
    }
  }

  // ---------- Runs ----------

  ghost predicate Chronological(rs: seq<Request>) {
    forall i, j :: 0 <= i < j < |rs| ==> rs[i].at <= rs[j].at
  }

  function StoreAfter(rs: seq<Request>): Store {
    if rs == [] then map[] else After(StoreAfter(rs[..|rs| - 1]), rs[|rs| - 1])
  }

  /** Whether request `i` of the run got through. */
  predicate Passed(rs: seq<Request>, i: nat)
    requires i < |rs|
  {
    Passes(StoreAfter(rs[..i]), rs[i])
  }

  /** How many requests of the run carry `key`. */
  function Arrivals(rs: seq<Request>, key: Key): nat {
    if rs == [] then 0
    else Arrivals(rs[..|rs| - 1], key) + if KeyOf(rs[|rs| - 1]) == key then 1 else 0
  }

  /** The first request that carries `key` was cut short, so that the key never got an expiry. */
  predicate FirstCut(rs: seq<Request>, key: Key) {
    if rs == [] then false
    else if Arrivals(rs[..|rs| - 1], key) > 0 then FirstCut(rs[..|rs| - 1], key)
    else KeyOf(rs[|rs| - 1]) == key && rs[|rs| - 1].cut
  }

  /** The clock of the run: the time of its last request. */
  function Now(rs: seq<Request>): real
    requires rs != []
  {
    rs[|rs| - 1].at
  }

  lemma MinuteBounds(now: real)
    ensures WINDOW * Minute(now) as real <= now < WINDOW * Minute(now) as real + WINDOW
  {
  }

  /** A stored key holds the number of its arrivals and expires in the minute that starts 70 seconds
      after its own; until that minute starts, a key that has arrived is stored. A key whose first
      request was cut short stays. */
  ghost predicate Faithful(store: Store, key: Key, arrivals: nat, firstCut: bool, now: real) {
    var start := WINDOW * key.minute as real;
    && (arrivals > 0 ==> start <= now)
    && (arrivals > 0 && (firstCut || now < start + EXPIRY) ==> key in store)
    && (key in store ==>
      && store[key].count == arrivals > 0
      && (store[key].expiresAt.None? <==> firstCut)
      && (!firstCut ==>
        && start + EXPIRY <= store[key].expiresAt.value < start + WINDOW + EXPIRY
        && now < store[key].expiresAt.value))
  }

  lemma AfterIsFaithful(store: Store, key: Key, arrivals: nat, firstCut: bool, now: real, r: Request)
    requires Faithful(store, key, arrivals, firstCut, now) && now <= r.at && (arrivals == 0 ==> !firstCut)
    ensures Faithful(After(store, r), key, arrivals + if KeyOf(r) == key then 1 else 0,
      if arrivals == 0 then KeyOf(r) == key && r.cut else firstCut, r.at)
  {
    MinuteBounds(r.at);
    var live := Live(store, r.at);
    if KeyOf(r) == key {
      assert key in live <==> arrivals > 0;
    } else {
      assert key in After(store, r) <==> key in live;
    }
  }

  lemma OneMoreRequest(rs: seq<Request>, key: Key, now: real)
    requires rs != [] && now <= Now(rs)
    requires var before := rs[..|rs| - 1];
      Faithful(StoreAfter(before), key, Arrivals(before, key), FirstCut(before, key), now)
    ensures Faithful(StoreAfter(rs), key, Arrivals(rs, key), FirstCut(rs, key), Now(rs))
  {
    var before := rs[..|rs| - 1];
    if Arrivals(before, key) == 0 {
      NoArrivalNoCut(before, key);
    }
    AfterIsFaithful(StoreAfter(before), key, Arrivals(before, key), FirstCut(before, key), now, rs[|rs| - 1]);
    assert StoreAfter(rs) == After(StoreAfter(before), rs[|rs| - 1]);
  }

  lemma {:induction false} NoArrivalNoCut(rs: seq<Request>, key: Key)
    requires Arrivals(rs, key) == 0
    ensures !FirstCut(rs, key)
  {
    if rs != [] {
      NoArrivalNoCut(rs[..|rs| - 1], key);
    }
  }

  lemma {:induction false} StoreIsFaithful(rs: seq<Request>, key: Key)
    requires Chronological(rs) && rs != []
    ensures Faithful(StoreAfter(rs), key, Arrivals(rs, key), FirstCut(rs, key), Now(rs))
  {
    var before := rs[..|rs| - 1];
    if before != [] {
      StoreIsFaithful(before, key);
    }
    OneMoreRequest(rs, key, if before == [] then Now(rs) else Now(before));
  }

  /** A request that is not cut short passes exactly when it is among the first `limit` of its client
      in its minute: the expiry never resets a counter inside its own minute, cut or not. */
  lemma WindowIsExact(rs: seq<Request>, i: nat)
    requires Chronological(rs) && i < |rs|
    ensures Passed(rs, i) <==> !rs[i].cut && Arrivals(rs[..i + 1], KeyOf(rs[i])) <= rs[i].limit
  {
    var upto := rs[..i + 1];
    assert upto[..i] == rs[..i];
    MinuteBounds(rs[i].at);
    StoreIsFaithful(upto, KeyOf(rs[i]));
  }

  /** The limit in force for a client throughout the run. */
  ghost predicate Limited(rs: seq<Request>, client: Client, limit: nat) {
    forall i :: 0 <= i < |rs| && rs[i].client == client ==> rs[i].limit == limit
  }

  function PassedIn(rs: seq<Request>, key: Key): nat {
    if rs == [] then 0
    else
      var n := |rs| - 1;
      PassedIn(rs[..n], key) + if KeyOf(rs[n]) == key && Passed(rs, n) then 1 else 0
  }

  /** The cut requests among the first `limit` of a minute. */
  function CutWithin(rs: seq<Request>, key: Key, limit: nat): nat {
    if rs == [] then 0
    else
      var n := |rs| - 1;
      CutWithin(rs[..n], key, limit)
      + if KeyOf(rs[n]) == key && rs[n].cut && Arrivals(rs, key) <= limit then 1 else 0
  }

  /** In one minute a client gets exactly `limit` requests through, or all if it made fewer, save for
      those that were cut short. */
  lemma {:induction false} MinuteQuota(rs: seq<Request>, key: Key, limit: nat)
    requires Chronological(rs) && Limited(rs, key.client, limit)
    ensures PassedIn(rs, key) + CutWithin(rs, key, limit)
      == if Arrivals(rs, key) <= limit then Arrivals(rs, key) else limit
  {
    if rs != [] {
      var n := |rs| - 1;
      MinuteQuota(rs[..n], key, limit);
      WindowIsExact(rs, n);
      assert rs[..n + 1] == rs;
    }
  }

  /** The requests of the run are served under `limits`. */
  ghost predicate ServedUnder(limits: map<Group, int>, rs: seq<Request>) {
    forall i :: 0 <= i < |rs| ==> rs[i].limit == LimitOf(limits, rs[i].client.group)
  }

  /** A client's minute is limited by its own group's limit, else by the default one, else to 60. */
  lemma GroupQuota(limits: map<Group, int>, rs: seq<Request>, key: Key, limit: nat)
    requires Chronological(rs) && ServedUnder(limits, rs)
    requires key.client.group in limits ==> limit == limits[key.client.group]
    requires key.client.group !in limits && Default in limits ==> limit == limits[Default]
    requires key.client.group !in limits && Default !in limits ==> limit == 60
    ensures PassedIn(rs, key) + CutWithin(rs, key, limit)
      == if Arrivals(rs, key) <= limit then Arrivals(rs, key) else limit
  {
    MinuteQuota(rs, key, limit);
  }

  /** The counter that a request opens is kept for seventy seconds, or for good if the request is cut. */
  lemma CounterIsKept(store: Store, r: Request, now: real)
    requires KeyOf(r) !in Live(store, r.at) && r.at <= now
    ensures KeyOf(r) in Live(After(store, r), now) <==> r.cut || now < r.at + 70.0
  {
  }

  // ---------- Any interval ----------

  function PassedBetween(rs: seq<Request>, client: Client, from: real, to: real): nat {
    if rs == [] then 0
    else
      var n := |rs| - 1;
      PassedBetween(rs[..n], client, from, to)
      + if rs[n].client == client && from <= rs[n].at <= to && Passed(rs, n) then 1 else 0
  }

  function PassedInMinutes(rs: seq<Request>, client: Client, first: int, count: nat): nat {
    if count == 0 then 0
    else PassedInMinutes(rs, client, first, count - 1) + PassedIn(rs, Key(client, first + count - 1))
  }

  lemma {:induction false} OneMorePassed(rs: seq<Request>, client: Client, first: int, count: nat)
    requires rs != []
    ensures var n := |rs| - 1;
      PassedInMinutes(rs, client, first, count) == PassedInMinutes(rs[..n], client, first, count)
        + if rs[n].client == client && first <= Minute(rs[n].at) < first + count && Passed(rs, n) then 1 else 0
  {
    if count > 0 {
      OneMorePassed(rs, client, first, count - 1);
    }
  }

  lemma {:induction false} IntervalWithinMinutes(rs: seq<Request>, client: Client, from: real, to: real, count: nat)
    requires from <= to && Minute(to) < Minute(from) + count
    ensures PassedBetween(rs, client, from, to) <= PassedInMinutes(rs, client, Minute(from), count)
  {
    if rs == [] {
      NothingPassed(client, Minute(from), count);
    } else {
      IntervalWithinMinutes(rs[..|rs| - 1], client, from, to, count);
      OneMorePassed(rs, client, Minute(from), count);
    }
  }

  lemma {:induction false} NothingPassed(client: Client, first: int, count: nat)
    ensures PassedInMinutes([], client, first, count) == 0
  {
    if count > 0 {
      NothingPassed(client, first, count - 1);
    }
  }

  lemma {:induction false} MinutesQuota(rs: seq<Request>, client: Client, limit: nat, first: int, count: nat)
    requires Chronological(rs) && Limited(rs, client, limit)
    ensures PassedInMinutes(rs, client, first, count) <= count * limit
  {
    if count > 0 {
      MinutesQuota(rs, client, limit, first, count - 1);
      MinuteQuota(rs, Key(client, first + count - 1), limit);
      assert count * limit == (count - 1) * limit + limit;
    }
  }

  /** Any interval of `to - from` seconds lets at most `(floor((to - from) / 60) + 2) * limit`
      requests of a client through. */
  lemma IntervalQuota(rs: seq<Request>, client: Client, limit: nat, from: real, to: real)
    requires Chronological(rs) && Limited(rs, client, limit) && from <= to
    ensures PassedBetween(rs, client, from, to) <= (((to - from) / WINDOW).Floor + 2) * limit
  {
    var count: nat := ((to - from) / WINDOW).Floor + 2;
    IntervalWithinMinutes(rs, client, from, to, count);
    MinutesQuota(rs, client, limit, Minute(from), count);
  }

  /** The minutes a client has keys for. */
  ghost function LiveMinutes(rs: seq<Request>, client: Client): set<int> {
    set k | k in StoreAfter(rs) && k.client == client :: k.minute
  }

  /** The live keys of a client are of this minute and the two before, and exactly those older ones
      whose first request was cut short. */
  lemma OldKeysWereCut(rs: seq<Request>, client: Client, minute: int)
    requires Chronological(rs) && rs != []
    ensures minute in LiveMinutes(rs, client) ==> minute <= Minute(Now(rs))
    ensures minute < Minute(Now(rs)) - 2 ==> (minute in LiveMinutes(rs, client) <==> FirstCut(rs, Key(client, minute)))
  {
    var key := Key(client, minute);
    MinuteBounds(Now(rs));
    StoreIsFaithful(rs, key);
    if Arrivals(rs, key) == 0 {
      NoArrivalNoCut(rs, key);
    }
    assert minute in LiveMinutes(rs, client) <==> key in StoreAfter(rs);
  }

  /** Those that will expire. */
  ghost function ExpiringMinutes(rs: seq<Request>, client: Client): set<int> {
    set m | m in LiveMinutes(rs, client) && !FirstCut(rs, Key(client, m))
  }

  /** So at most three keys of a client are live at once, save for those whose first request was cut. */
  lemma AtMostThreeKeys(rs: seq<Request>, client: Client)
    requires Chronological(rs) && rs != []
    ensures |ExpiringMinutes(rs, client)| <= 3
  {
    var now := Minute(Now(rs));
    forall m | m in ExpiringMinutes(rs, client) ensures m in {now - 2, now - 1, now} {
      OldKeysWereCut(rs, client, m);
    }
    SubsetSize(ExpiringMinutes(rs, client), {now - 2, now - 1, now});
  }

  /** A cut first request leaves a key that is there at any later time. */
  lemma CutKeyStays(client: Client, at: real, later: real)
    requires at <= later
    ensures var r := Request(client, at, 1, true);
      Key(client, Minute(at)) in Live(StoreAfter([r]), later)
  {
    assert [Request(client, at, 1, true)][..0] == [];
  }

  lemma SubsetSize(small: set<int>, big: set<int>)
    requires small <= big
    ensures |small| <= |big|
  {
    assert big == small + (big - small);
  }
}
