/** One-time step-up tokens of administrators, kept in a process-local table and, when it is
    configured, in Redis. A hash is modelled by the text it is taken of. Times are in seconds. */
module StepUp {
  import opened Options

  type Time = int
  type Jti = nat
  type UserId = nat
  type AccessToken = nat

  /** The action a token is good for: `"*"` or one action. */
  datatype Scope = AnyAction | Only(action: nat)

  predicate Covers(scope: Scope, action: nat) {
    scope.AnyAction? || scope.action == action
  }

  /** A signed token; `genuine` tells whether its signature verifies, `stepUp` whether its
      `action` claim is `admin_step_up`, and `jti` is its `jti` claim if it has one. */
  datatype Token = Token(
    genuine: bool, stepUp: bool, sub: UserId, scope: Scope, jti: Option<Jti>, expiresAt: Time)

  datatype Record = Record(token: Token, user: UserId, scope: Scope, expiresAt: Time, boundTo: Option<AccessToken>)

  datatype Entry = Entry(record: Record, deadline: Time)

  datatype Stores = Stores(local: map<Jti, Record>, redis: Option<map<Jti, Entry>>)

  datatype Verdict =
    | Accepted
    | InvalidToken | UserMismatch | ActionMismatch
    | Reused
    | RecordUserMismatch | RecordActionMismatch | RecordTokenMismatch | SessionMismatch

  // ---------- The operations ----------

  function Purged(local: map<Jti, Record>, now: Time): map<Jti, Record> {
    map j | j in local && local[j].expiresAt > now :: local[j]
  }

  function Remember(local: map<Jti, Record>, jti: Jti, record: Record, now: Time): map<Jti, Record> {
    Purged(local, now)[jti := record]
  }

  function Persist(redis: Option<map<Jti, Entry>>, jti: Jti, record: Record, now: Time): Option<map<Jti, Entry>> {
    match redis
    case None => None
    case Some(entries) =>
      var ttl := if record.expiresAt - now < 1 then 1 else record.expiresAt - now;
      Some(entries[jti := Entry(record, now + ttl)])
  }

  function NewToken(user: UserId, scope: Scope, jti: Jti, expiresAt: Time): Token {
    Token(true, true, user, scope, Some(jti), expiresAt)
  }

  /** `minutes` is the configured lifetime; 0 stands for unset. */
  function Lifetime(minutes: int): (seconds: int)
    ensures seconds >= 60
  {
    60 * (if minutes == 0 then 5 else if minutes < 1 then 1 else minutes)
  }

  function Create(st: Stores, user: UserId, scope: Scope, jti: Jti, minutes: int, now: Time): (Stores, Token) {
    var token := NewToken(user, scope, jti, now + Lifetime(minutes));
    (st.(local := Remember(st.local, jti, Record(token, user, scope, token.expiresAt, None), now)), token)
  }

  function Register(st: Stores, token: Token, user: UserId, scope: Scope, now: Time): Stores {
    match token.jti
    case None => st
    case Some(jti) => st.(redis := Persist(st.redis, jti, Record(token, user, scope, token.expiresAt, None), now))
  }

  function Bind(st: Stores, token: Token, access: Option<AccessToken>, now: Time): Stores {
    if access.None? || token.jti.None? || token.jti.value !in st.local then st
    else
      var jti := token.jti.value;
      var record := st.local[jti].(boundTo := access);
      Stores(Remember(st.local[jti := record], jti, record, now), Persist(st.redis, jti, record, now))
  }

  function LiveInRedis(st: Stores, jti: Jti, now: Time): Option<Record> {
    if st.redis.Some? && jti in st.redis.value && now < st.redis.value[jti].deadline
    then Some(st.redis.value[jti].record) else None
  }

  function LiveInLocal(st: Stores, jti: Jti, now: Time): Option<Record> {
    if jti in st.local && now < st.local[jti].expiresAt then Some(st.local[jti]) else None
  }

  /** Reading a key of Redis removes it; the local table is only read when Redis has nothing. */
  function Consume(st: Stores, jti: Jti, now: Time): (Stores, Option<Record>) {
    var redis := if st.redis.Some? then Some(st.redis.value - {jti}) else None;
    match LiveInRedis(st, jti, now)
    case Some(record) => (st.(redis := redis), Some(record))
    case None => (Stores(Purged(st.local, now) - {jti}, redis), LiveInLocal(st, jti, now))
  }

  /** The checks on the claims, before any store is read. */
  function CheckClaims(token: Token, admin: UserId, action: nat, now: Time): Verdict {
    if !token.genuine || token.expiresAt < now then InvalidToken
    else if !token.stepUp || token.jti.None? then InvalidToken
    else if token.sub != admin then UserMismatch
    else if !Covers(token.scope, action) then ActionMismatch
    else Accepted
  }

  /** The checks on the record, once it has been consumed. */
  function CheckRecord(record: Record, token: Token, access: Option<AccessToken>, admin: UserId, action: nat): Verdict {
    if record.user != admin then RecordUserMismatch
    else if !Covers(record.scope, action) then RecordActionMismatch
    else if record.token != token then RecordTokenMismatch
    else if record.boundTo.Some? && record.boundTo != access then SessionMismatch
    else Accepted
  }

  function Validate(
    st: Stores, token: Token, access: Option<AccessToken>, admin: UserId, action: nat, now: Time): (Stores, Verdict) {
    var claims := CheckClaims(token, admin, action, now);
    if claims != Accepted then (st, claims)
    else
      var (after, found) := Consume(st, token.jti.value, now);
      match found
      case None => (after, Reused)
      case Some(record) => (after, CheckRecord(record, token, access, admin, action))
  }

  class TokenStores {
    var local: map<Jti, Record>
    var redis: Option<map<Jti, Entry>>

    ghost function Contents(): Stores
      reads this
    {
      Stores(local, redis)
    }

    constructor (withRedis: bool)
      ensures Contents() == Stores(map[], if withRedis then Some(map[]) else None)
    {
      local, redis := map[], if withRedis then Some(map[]) else None;
    }

    method PurgeExpired(now: Time)
      modifies this`local
      ensures local == Purged(old(local), now)
    {
      var expired := set j | j in local && local[j].expiresAt <= now;
      while expired != {}
        invariant forall j :: j in expired ==> j in local && local[j].expiresAt <= now
        invariant forall j :: j in local && local[j].expiresAt <= now ==> j in expired
        invariant Purged(local, now) == Purged(old(local), now)
      {
        var key :| key in expired;
        local := local - {key};
        expired := expired - {key};
      }
      assert local == Purged(local, now);
    }

    method RememberLocal(jti: Jti, record: Record, now: Time)
      modifies this`local
      ensures local == Remember(old(local), jti, record, now)
    {
      PurgeExpired(now);
      local := local[jti := record];
    }

    method ConsumeLocal(jti: Jti, now: Time) returns (record: Option<Record>)
      modifies this`local
      ensures local == Purged(old(local), now) - {jti}
      ensures record == LiveInLocal(old(Contents()), jti, now)
    {
      PurgeExpired(now);
      record := if jti in local then Some(local[jti]) else None;
      local := local - {jti};
    }

    method PersistRedis(jti: Jti, record: Record, now: Time)
      modifies this`redis
      ensures redis == Persist(old(redis), jti, record, now)
    {
      if redis.None? {
        return;
      }
      var ttl := record.expiresAt - now;
      if ttl < 1 {
        ttl := 1;
      }
      redis := Some(redis.value[jti := Entry(record, now + ttl)]);
    }

    method ConsumeRedis(jti: Jti, now: Time) returns (record: Option<Record>)
      modifies this`redis
      ensures redis == if old(redis).Some? then Some(old(redis).value - {jti}) else None
      ensures record == LiveInRedis(old(Contents()), jti, now)
    {
      if redis.None? {
        return None;
      }
      record := None;
      if jti in redis.value {
        if now < redis.value[jti].deadline {
          record := Some(redis.value[jti].record);
        }
      }
      redis := Some(redis.value - {jti});
    }

    method CreateToken(user: UserId, scope: Scope, jti: Jti, minutes: int, now: Time) returns (token: Token)
      modifies this`local
      ensures (Contents(), token) == Create(old(Contents()), user, scope, jti, minutes, now)
    {
      var expiresAt := now + Lifetime(minutes);
      token := NewToken(user, scope, jti, expiresAt);
      RememberLocal(jti, Record(token, user, scope, expiresAt, None), now);
    }

    method RegisterToken(token: Token, user: UserId, scope: Scope, now: Time)
      modifies this`redis
      ensures Contents() == Register(old(Contents()), token, user, scope, now)
    {
      if token.jti.None? {
        return;
      }
      PersistRedis(token.jti.value, Record(token, user, scope, token.expiresAt, None), now);
    }

    method BindToken(token: Token, access: Option<AccessToken>, now: Time)
      modifies this
      ensures Contents() == Bind(old(Contents()), token, access, now)
    {
      if access.None? || token.jti.None? {
        return;
      }
      var jti := token.jti.value;
      if jti !in local {
        return;
      }
      var record := local[jti].(boundTo := access);
      local := local[jti := record];
      RememberLocal(jti, record, now);
      PersistRedis(jti, record, now);
    }

    method ValidateToken(token: Token, access: Option<AccessToken>, admin: UserId, action: nat, now: Time)
      returns (verdict: Verdict)
      modifies this
      ensures (Contents(), verdict) == Validate(old(Contents()), token, access, admin, action, now)
    {
      if !token.genuine || token.expiresAt < now {
        return InvalidToken;
      }
      if !token.stepUp || token.jti.None? {
        return InvalidToken;
      }
      if token.sub != admin {
        return UserMismatch;
      }
      if !Covers(token.scope, action) {
        return ActionMismatch;
      }
      var found := ConsumeRedis(token.jti.value, now);
      if found.None? {
        found := ConsumeLocal(token.jti.value, now);
      }
      if found.None? {
        return Reused;
      }
      var record := found.value;
      if record.user != admin {
        return RecordUserMismatch;
      }
      if !Covers(record.scope, action) {
        return RecordActionMismatch;
      }
      if record.token != token {
        return RecordTokenMismatch;
      }
      if record.boundTo.Some? && record.boundTo != access {
        return SessionMismatch;
      }
      verdict := Accepted;
    }
  }

  // ---------- Runs ----------

  datatype Event =
    | Created(user: UserId, scope: Scope, jti: Jti, minutes: int, now: Time)
    | Registered(token: Token, user: UserId, scope: Scope, now: Time)
    | Bound(token: Token, access: Option<AccessToken>, now: Time)
    | Presented(token: Token, access: Option<AccessToken>, admin: UserId, action: nat, now: Time)

  function Step(st: Stores, e: Event): Stores {
    match e
    case Created(user, scope, jti, minutes, now) => Create(st, user, scope, jti, minutes, now).0
    case Registered(token, user, scope, now) => Register(st, token, user, scope, now)
    case Bound(token, access, now) => Bind(st, token, access, now)
    case Presented(token, access, admin, action, now) => Validate(st, token, access, admin, action, now).0
  }

  function Run(st: Stores, es: seq<Event>): Stores {
    if es == [] then st else Step(Run(st, es[..|es| - 1]), es[|es| - 1])
  }

  predicate IsAccepted(st: Stores, e: Event, jti: Jti) {
    e.Presented? && e.token.jti == Some(jti) && Validate(st, e.token, e.access, e.admin, e.action, e.now).1 == Accepted
  }

  /** The copies of the record of `jti` that the stores hold. */
  function Copies(st: Stores, jti: Jti): nat {
    (if jti in st.local then 1 else 0) + (if st.redis.Some? && jti in st.redis.value then 1 else 0)
  }

  /** The copies of the record of `jti` that an event stores anew. */
  function Stored(st: Stores, e: Event, jti: Jti): nat {
    match e
    case Created(_, _, j, _, _) => if j == jti then 1 else 0
    case Registered(token, _, _, _) => if token.jti == Some(jti) && st.redis.Some? then 1 else 0
    case Bound(token, access, _) =>
      if token.jti == Some(jti) && st.redis.Some? && access.Some? && jti in st.local then 1 else 0
    case Presented(_, _, _, _, _) => 0
  }

  function Acceptances(st: Stores, es: seq<Event>, jti: Jti): nat {
    if es == [] then 0
    else
      var before := es[..|es| - 1];
      Acceptances(st, before, jti) + if IsAccepted(Run(st, before), es[|es| - 1], jti) then 1 else 0
  }

  function AllStored(st: Stores, es: seq<Event>, jti: Jti): nat {
    if es == [] then 0
    else AllStored(st, es[..|es| - 1], jti) + Stored(Run(st, es[..|es| - 1]), es[|es| - 1], jti)
  }

  lemma StepConserves(st: Stores, e: Event, jti: Jti)
    ensures Copies(Step(st, e), jti) + (if IsAccepted(st, e, jti) then 1 else 0) <= Copies(st, jti) + Stored(st, e, jti)
  {
  }

  /** In every interleaving, acceptances of a `jti` plus the copies still held never exceed the
      copies held at first plus those stored since. */
  lemma {:induction false} CopyConservation(st: Stores, es: seq<Event>, jti: Jti)
    ensures Acceptances(st, es, jti) + Copies(Run(st, es), jti) <= Copies(st, jti) + AllStored(st, es, jti)
  {
    if es != [] {
      CopyConservation(st, es[..|es| - 1], jti);
      StepConserves(Run(st, es[..|es| - 1]), es[|es| - 1], jti);
    }
  }

  function Creations(es: seq<Event>, jti: Jti): nat {
    if es == [] then 0
    else Creations(es[..|es| - 1], jti) + if es[|es| - 1].Created? && es[|es| - 1].jti == jti then 1 else 0
  }

  lemma {:induction false} WithoutRedis(st: Stores, es: seq<Event>, jti: Jti)
    requires st.redis.None?
    ensures Run(st, es).redis.None? && AllStored(st, es, jti) == Creations(es, jti)
  {
    if es != [] {
      WithoutRedis(st, es[..|es| - 1], jti);
    }
  }

  /** Without Redis a token that is created once is accepted at most once, ever. */
  lemma AtMostOnceWithoutRedis(es: seq<Event>, jti: Jti)
    requires Creations(es, jti) <= 1
    ensures Acceptances(Stores(map[], None), es, jti) <= 1
  {
    CopyConservation(Stores(map[], None), es, jti);
    WithoutRedis(Stores(map[], None), es, jti);
  }

  // ---------- One presentation ----------

  /** The record that presenting `jti` would consume. */
  function Held(st: Stores, jti: Jti, now: Time): Option<Record> {
    if LiveInRedis(st, jti, now).Some? then LiveInRedis(st, jti, now) else LiveInLocal(st, jti, now)
  }

  /** The cases of `Validate`, read backwards: a presentation is accepted exactly when the claims hold
      and the stores have a live record of this very token for this administrator, action and session.
      A token rejected on its claims costs no copy. */
  lemma AcceptedIff(st: Stores, token: Token, access: Option<AccessToken>, admin: UserId, action: nat, now: Time)
    ensures var (after, verdict) := Validate(st, token, access, admin, action, now);
      && (verdict == Accepted <==>
        && token.genuine && token.stepUp && now <= token.expiresAt && token.sub == admin && Covers(token.scope, action)
        && token.jti.Some? && Held(st, token.jti.value, now).Some?
        && var record := Held(st, token.jti.value, now).value;
           record.user == admin && Covers(record.scope, action) && record.token == token
           && (record.boundTo.None? || record.boundTo == access))
      && (verdict in {InvalidToken, UserMismatch, ActionMismatch} ==> after == st)
      && (forall j: Jti :: token.jti != Some(j) ==> Held(after, j, now) == Held(st, j, now))
  {
  }

  /** Presenting an accepted token again: it is accepted again exactly when the first time used up
      a Redis copy and the local copy is still live and matches. */
  lemma SecondPresentation(
    st: Stores, token: Token, access: Option<AccessToken>, admin: UserId, action: nat, now: Time, later: Time)
    requires now <= later && Validate(st, token, access, admin, action, now).1 == Accepted
    ensures var st1 := Validate(st, token, access, admin, action, now).0;
      var jti := token.jti.value;
      Validate(st1, token, access, admin, action, later).1 == Accepted <==>
        && LiveInRedis(st, jti, now).Some? && LiveInLocal(st, jti, later).Some? && later <= token.expiresAt
        && CheckRecord(st.local[jti], token, access, admin, action) == Accepted
  {
  }

  // ---------- The issuing flow ----------

  /** What the issuing endpoint does: create, register, bind to the session. */
  function Issue(
    st: Stores, user: UserId, scope: Scope, jti: Jti, minutes: int,
    access: Option<AccessToken>, now: Time): (Stores, Token) {
    var (created, token) := Create(st, user, scope, jti, minutes, now);
    (Bind(Register(created, token, user, scope, now), token, access, now), token)
  }

  /** A token issued while Redis is in use is accepted twice, then refused; without Redis it is
      accepted once, then refused. */
  lemma IssuedTokenPresentations(
    st: Stores, user: UserId, scope: Scope, jti: Jti, minutes: int, access: Option<AccessToken>, action: nat, now: Time)
    requires Covers(scope, action)
    ensures var (st0, token) := Issue(st, user, scope, jti, minutes, access, now);
      var (st1, first) := Validate(st0, token, access, user, action, now);
      var (st2, second) := Validate(st1, token, access, user, action, now);
      var third := Validate(st2, token, access, user, action, now).1;
      && first == Accepted
      && second == (if st.redis.Some? then Accepted else Reused)
      && third == Reused
  {
    var token := NewToken(user, scope, jti, now + Lifetime(minutes));
    var record := Record(token, user, scope, token.expiresAt, access);
    var st0 := Issue(st, user, scope, jti, minutes, access, now).0;
    assert jti in st0.local && st0.local[jti] == record;
    assert LiveInLocal(st0, jti, now) == Some(record);
    assert st.redis.Some? ==> LiveInRedis(st0, jti, now) == Some(record);
  }

  predicate Allows(scope: Scope, action: nat) {
    scope == AnyAction || scope == Only(action)
  }

  /** The configured minutes, five when unset, one at least. */
  function LifetimeInSeconds(minutes: int): int {
    if minutes == 0 then 300 else if minutes < 1 then 60 else 60 * minutes
  }

  /** The verdict on the first presentation of an issued token: it is accepted before its lifetime is over,
      for its administrator, for an action it allows and in the session it is bound to, if any. */
  lemma IssuedTokenVerdict(
    st: Stores, user: UserId, scope: Scope, jti: Jti, minutes: int, access: Option<AccessToken>, now: Time,
    admin: UserId, action: nat, session: Option<AccessToken>, later: Time)
    requires now <= later
    ensures var (st0, token) := Issue(st, user, scope, jti, minutes, access, now);
      var verdict, end := Validate(st0, token, session, admin, action, later).1, now + LifetimeInSeconds(minutes);
      && (verdict == InvalidToken <==> later > end)
      && (verdict == UserMismatch <==> later <= end && admin != user)
      && (verdict == ActionMismatch <==> later <= end && admin == user && !Allows(scope, action))
      && (verdict == Reused <==> later == end && admin == user && Allows(scope, action))
      && (verdict == SessionMismatch <==>
            later < end && admin == user && Allows(scope, action) && access.Some? && session != access)
      && (verdict == Accepted <==>
            later < end && admin == user && Allows(scope, action) && (access.None? || session == access))
  {
    var token := NewToken(user, scope, jti, now + Lifetime(minutes));
    var record := Record(token, user, scope, token.expiresAt, access);
    var st0 := Issue(st, user, scope, jti, minutes, access, now).0;
    assert jti in st0.local && st0.local[jti] == record;
    assert st.redis.Some? ==> jti in st0.redis.value && st0.redis.value[jti] == Entry(record, token.expiresAt);
  }

  /** Why a presented token is turned away once its claims hold: nothing live is held under its `jti`, or
      the record is not for this administrator, action, token or session, in this order. */
  lemma RecordVerdict(st: Stores, token: Token, access: Option<AccessToken>, admin: UserId, action: nat, now: Time)
    requires token.genuine && token.stepUp && token.jti.Some? && now <= token.expiresAt
    requires token.sub == admin && Allows(token.scope, action)
    ensures var verdict, held := Validate(st, token, access, admin, action, now).1, Held(st, token.jti.value, now);
      && (verdict == Reused <==> held.None?)
      && (held.Some? ==> var record := held.value;
        var user, scope, same := record.user == admin, Allows(record.scope, action), record.token == token;
        var session := record.boundTo in {None, access};
        && (verdict == RecordUserMismatch <==> !user)
        && (verdict == RecordActionMismatch <==> user && !scope)
        && (verdict == RecordTokenMismatch <==> user && scope && !same)
        && (verdict == SessionMismatch <==> user && scope && same && !session)
        && (verdict == Accepted <==> user && scope && same && session))
  {
  }

  /** Creating a token forgets the records that have expired and no others. */
  lemma CreationForgetsExpired(
    st: Stores, user: UserId, scope: Scope, jti: Jti, minutes: int, now: Time, j: Jti)
    ensures var after := Create(st, user, scope, jti, minutes, now).0;
      && (j in after.local ==> now < after.local[j].expiresAt)
      && (j != jti && LiveInLocal(st, j, now).Some? ==> LiveInLocal(after, j, now) == LiveInLocal(st, j, now))
      && after.redis == st.redis
  {
  }

  /** A Redis copy stored at `now` can be read until its record expires, and for a second at least. */
  lemma CopyOutlives(st: Stores, token: Token, user: UserId, scope: Scope, now: Time, later: Time)
    requires st.redis.Some? && token.jti.Some?
    ensures LiveInRedis(Register(st, token, user, scope, now), token.jti.value, later).Some?
      <==> later < token.expiresAt || later <= now
  {
  }

  lemma OtherStays(st: Stores, e: Event, jti: Jti, now: Time)
    requires !Concerns(e, jti) && e.now <= now
    ensures Held(Step(st, e), jti, now) == Held(st, jti, now)
  {
  }

  predicate Concerns(e: Event, jti: Jti) {
    match e
    case Created(_, _, j, _, _) => j == jti
    case Registered(token, _, _, _) => token.jti == Some(jti)
    case Bound(token, _, _) => token.jti == Some(jti)
    case Presented(token, _, _, _, _) => token.jti == Some(jti)
  }

  /** Whatever is done with other tokens leaves what is held of a token. */
  lemma {:induction false} OthersLeaveHeld(st: Stores, es: seq<Event>, jti: Jti, now: Time)
    requires forall k :: 0 <= k < |es| ==> !Concerns(es[k], jti) && es[k].now <= now
    ensures Held(Run(st, es), jti, now) == Held(st, jti, now)
  {
    if es != [] {
      OthersLeaveHeld(st, es[..|es| - 1], jti, now);
      OtherStays(Run(st, es[..|es| - 1]), es[|es| - 1], jti, now);
    }
  }

  /** An event that may store a copy of `jti`. */
  predicate MayStore(e: Event, jti: Jti) {
    match e
    case Created(_, _, j, _, _) => j == jti
    case Registered(token, _, _, _) => token.jti == Some(jti)
    case Bound(token, _, _) => token.jti == Some(jti)
    case Presented(_, _, _, _, _) => false
  }

  lemma {:induction false} NothingStored(st: Stores, es: seq<Event>, jti: Jti)
    requires forall k :: 0 <= k < |es| ==> !MayStore(es[k], jti)
    ensures AllStored(st, es, jti) == 0
  {
    if es != [] {
      NothingStored(st, es[..|es| - 1], jti);
      assert !MayStore(es[|es| - 1], jti);
    }
  }

  /** Whatever happens to an issued token but being stored anew, it is accepted at most twice with
      Redis and at most once without; by `IssuedTokenPresentations` both bounds are reached. */
  lemma IssuedTokenIsUsedUp(
    st: Stores, user: UserId, scope: Scope, jti: Jti, minutes: int,
    access: Option<AccessToken>, now: Time, es: seq<Event>)
    requires forall k :: 0 <= k < |es| ==> !MayStore(es[k], jti)
    ensures var st0 := Issue(st, user, scope, jti, minutes, access, now).0;
      Acceptances(st0, es, jti) <= if st.redis.Some? then 2 else 1
  {
    var st0 := Issue(st, user, scope, jti, minutes, access, now).0;
    CopyConservation(st0, es, jti);
    NothingStored(st0, es, jti);
  }

  lemma OneMoreEvent(st: Stores, es: seq<Event>, e: Event, jti: Jti)
    ensures Run(st, es + [e]) == Step(Run(st, es), e)
    ensures Acceptances(st, es + [e], jti)
      == Acceptances(st, es, jti) + if IsAccepted(Run(st, es), e, jti) then 1 else 0
    ensures Creations(es + [e], jti) == Creations(es, jti) + if e.Created? && e.jti == jti then 1 else 0
  {
    assert (es + [e])[..|es|] == es;
  }

  ghost predicate OnceOnly(st: Stores, jti: Jti) {
    forall es: seq<Event> :: Creations(es, jti) <= 1 ==> Acceptances(st, es, jti) <= 1
  }

  /** The events of issuing one token and presenting it twice. */
  lemma TwiceWithRedis(jti: Jti) returns (es: seq<Event>)
    ensures Creations(es, jti) == 1 && Acceptances(Stores(map[], Some(map[])), es, jti) == 2
  {
    var st := Stores(map[], Some(map[]));
    var token := NewToken(0, AnyAction, jti, Lifetime(5));
    var created, registered := Created(0, AnyAction, jti, 5, 0), Registered(token, 0, AnyAction, 0);
    var presented := Presented(token, None, 0, 0, 0);
    IssuedTokenPresentations(st, 0, AnyAction, jti, 5, None, 0, 0);
    OneMoreEvent(st, [], created, jti);
    OneMoreEvent(st, [] + [created], registered, jti);
    OneMoreEvent(st, [] + [created] + [registered], presented, jti);
    OneMoreEvent(st, [] + [created] + [registered] + [presented], presented, jti);
    es := [] + [created] + [registered] + [presented] + [presented];
  }

  /** Starting from empty stores, every token created once is accepted at most once in every run
      if and only if Redis is not in use. */
  lemma OnceOnlyIffNoRedis(withRedis: bool, jti: Jti)
    ensures OnceOnly(Stores(map[], if withRedis then Some(map[]) else None), jti) <==> !withRedis
  {
    if withRedis {
      var es := TwiceWithRedis(jti);
    } else {
      forall es: seq<Event> | Creations(es, jti) <= 1 ensures Acceptances(Stores(map[], None), es, jti) <= 1 {
        AtMostOnceWithoutRedis(es, jti);
      }
    }
  }

  // ---------- Session binding ----------

  /** Every copy of the record of `jti` is bound to the session of `access`. */
  predicate BoundOnly(st: Stores, jti: Jti, access: AccessToken) {
    && (jti in st.local ==> st.local[jti].boundTo == Some(access))
    && (st.redis.Some? && jti in st.redis.value ==> st.redis.value[jti].record.boundTo == Some(access))
  }

  /** An event that stores a copy of `jti` for another session, or for none. */
  predicate Reissues(e: Event, jti: Jti, access: AccessToken) {
    match e
    case Created(_, _, j, _, _) => j == jti
    case Registered(token, _, _, _) => token.jti == Some(jti)
    case Bound(token, a, _) => token.jti == Some(jti) && a != Some(access)
    case Presented(_, _, _, _, _) => false
  }

  lemma StepKeepsBinding(st: Stores, e: Event, jti: Jti, access: AccessToken)
    requires BoundOnly(st, jti, access) && !Reissues(e, jti, access)
    ensures BoundOnly(Step(st, e), jti, access)
  {
  }

  lemma {:induction false} BindingLasts(st: Stores, es: seq<Event>, jti: Jti, access: AccessToken)
    requires BoundOnly(st, jti, access) && forall k :: 0 <= k < |es| ==> !Reissues(es[k], jti, access)
    ensures BoundOnly(Run(st, es), jti, access)
  {
    if es != [] {
      BindingLasts(st, es[..|es| - 1], jti, access);
      StepKeepsBinding(Run(st, es[..|es| - 1]), es[|es| - 1], jti, access);
    }
  }

  /** A token issued to a session is only ever accepted in that session, whatever happens to other
      tokens, until it is issued anew. */
  lemma IssuedTokenIsBound(
    st: Stores, user: UserId, scope: Scope, jti: Jti, minutes: int,
    access: AccessToken, now: Time, es: seq<Event>, e: Event)
    requires forall k :: 0 <= k < |es| ==> !Reissues(es[k], jti, access)
    ensures var st0 := Issue(st, user, scope, jti, minutes, Some(access), now).0;
      IsAccepted(Run(st0, es), e, jti) ==> e.access == Some(access)
  {
    BindingLasts(Issue(st, user, scope, jti, minutes, Some(access), now).0, es, jti, access);
  }
}
