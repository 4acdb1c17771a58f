/** The registries of open web sockets: per order, per room, and per user. */
module Registries {
  type Socket = nat
  type Room = nat

  type RoomTable = map<Room, set<Socket>>

  /** The table read as a plain relation. */
  function Pairs(table: RoomTable): set<(Room, Socket)> {
    set r, s | r in table && s in table[r] :: (r, s)
  }

  predicate NoEmptyRoom(table: RoomTable) {
    forall r :: r in table ==> table[r] != {}
  }

  function Joined(table: RoomTable, room: Room, socket: Socket): RoomTable {
    table[room := (if room in table then table[room] else {}) + {socket}]
  }

  /** Removes a socket from a room, and the room with its last socket. */
  function Left(table: RoomTable, room: Room, socket: Socket): RoomTable {
    if room !in table then table
    else if table[room] - {socket} == {} then table - {room}
    else table[room := table[room] - {socket}]
  }

  lemma JoinedAddsOne(table: RoomTable, room: Room, socket: Socket)
    ensures Pairs(Joined(table, room, socket)) == Pairs(table) + {(room, socket)}
    ensures NoEmptyRoom(table) ==> NoEmptyRoom(Joined(table, room, socket))
  {
    var after := Joined(table, room, socket);
    forall r: Room, s: Socket ensures (r, s) in Pairs(after) <==> (r, s) in Pairs(table) || (r, s) == (room, socket) {
      assert (r, s) in Pairs(after) <==> r in after && s in after[r];
      assert (r, s) in Pairs(table) <==> r in table && s in table[r];
    }
  }

  lemma LeftRemovesOne(table: RoomTable, room: Room, socket: Socket)
    requires NoEmptyRoom(table)
    ensures Pairs(Left(table, room, socket)) == Pairs(table) - {(room, socket)}
    ensures NoEmptyRoom(Left(table, room, socket))
  {
    var after := Left(table, room, socket);
    forall r: Room, s: Socket ensures (r, s) in Pairs(after) <==> (r, s) in Pairs(table) && (r, s) != (room, socket) {
      assert (r, s) in Pairs(after) <==> r in after && s in after[r];
      assert (r, s) in Pairs(table) <==> r in table && s in table[r];
    }
  }

  function Reached(sockets: set<Socket>, fails: Socket -> bool): set<Socket> {
    set s | s in sockets && !fails(s)
  }

  /** Removes from a room the sockets whose send fails, and the room with its last socket. */
  function Cleaned(table: RoomTable, room: Room, fails: Socket -> bool): RoomTable {
    if room !in table then table
    else if Reached(table[room], fails) == {} then table - {room}
    else table[room := Reached(table[room], fails)]
  }

  lemma CleanedRemovesFailed(table: RoomTable, room: Room, fails: Socket -> bool)
    requires NoEmptyRoom(table)
    ensures NoEmptyRoom(Cleaned(table, room, fails))
    ensures Pairs(Cleaned(table, room, fails)) == set p | p in Pairs(table) && !(p.0 == room && fails(p.1))
  {
    var after := Cleaned(table, room, fails);
    forall r: Room, s: Socket
      ensures (r, s) in Pairs(after) <==> (r, s) in Pairs(table) && !(r == room && fails(s))
    {
      assert (r, s) in Pairs(after) <==> r in after && s in after[r];
      assert (r, s) in Pairs(table) <==> r in table && s in table[r];
      if r == room && r in table {
        assert s in Reached(table[r], fails) <==> s in table[r] && !fails(s);
      }
    }
  }

  /** Without empty rooms, the relation determines the table. */
  lemma RelationDeterminesTable(t: RoomTable, u: RoomTable)
    requires NoEmptyRoom(t) && NoEmptyRoom(u) && Pairs(t) == Pairs(u)
    ensures t == u
  {
    forall r: Room, s: Socket ensures r in t && s in t[r] <==> r in u && s in u[r] {
      assert (r, s) in Pairs(t) <==> r in t && s in t[r];
      assert (r, s) in Pairs(u) <==> r in u && s in u[r];
    }
    forall r: Room ensures r in t <==> r in u {
      if r in t { var s :| s in t[r]; }
      if r in u { var s :| s in u[r]; }
    }
    forall r | r in t ensures t[r] == u[r] {
    }
  }

  // ---------- Runs of one registry ----------

  datatype Event =
    | Connects(room: Room, socket: Socket)
    | Disconnects(room: Room, socket: Socket)
    | Broadcasts(room: Room, fails: Socket -> bool)

  function TableStep(table: RoomTable, e: Event): RoomTable {
    match e
    case Connects(room, socket) => Joined(table, room, socket)
    case Disconnects(room, socket) => Left(table, room, socket)
    case Broadcasts(room, fails) => Cleaned(table, room, fails)
  }

  function RelationStep(pairs: set<(Room, Socket)>, e: Event): set<(Room, Socket)> {
    match e
    case Connects(room, socket) => pairs + {(room, socket)}
    case Disconnects(room, socket) => pairs - {(room, socket)}
    case Broadcasts(room, fails) => set p | p in pairs && !(p.0 == room && fails(p.1))
  }

  function TableRun(es: seq<Event>): RoomTable {
    if es == [] then map[] else TableStep(TableRun(es[..|es| - 1]), es[|es| - 1])
  }

  function RelationRun(es: seq<Event>): set<(Room, Socket)> {
    if es == [] then {} else RelationStep(RelationRun(es[..|es| - 1]), es[|es| - 1])
  }

  /** After any connections, disconnections and broadcasts the table has no empty room and says just
      what the plain relation says. */
  lemma {:induction false} RunRefinesRelation(es: seq<Event>)
    ensures NoEmptyRoom(TableRun(es)) && Pairs(TableRun(es)) == RelationRun(es)
  {
    if es != [] {
      var before := TableRun(es[..|es| - 1]);
      RunRefinesRelation(es[..|es| - 1]);
      match es[|es| - 1]
      case Connects(room, socket) => JoinedAddsOne(before, room, socket);
      case Disconnects(room, socket) => LeftRemovesOne(before, room, socket);
      case Broadcasts(room, fails) => CleanedRemovesFailed(before, room, fails);
    }
  }

  /** The sockets that follow an order. */
  class ConnectionManager {
    var active: RoomTable

    ghost predicate Valid()
      reads this
    {
      NoEmptyRoom(active)
    }

    constructor ()
      ensures Valid() && active == TableRun([])
    {
      active := map[];
    }

    method Connect(order: Room, socket: Socket)
      requires Valid()
      modifies this
      ensures Valid() && active == TableStep(old(active), Connects(order, socket))
      ensures Pairs(active) == Pairs(old(active)) + {(order, socket)}
    {
      JoinedAddsOne(active, order, socket);
      if order !in active {
        active := active[order := {}];
      }
      active := active[order := active[order] + {socket}];
      assert active == Joined(old(active), order, socket);
    }

    method Disconnect(order: Room, socket: Socket)
      requires Valid()
      modifies this
      ensures Valid() && active == TableStep(old(active), Disconnects(order, socket))
      ensures Pairs(active) == Pairs(old(active)) - {(order, socket)}
    {
      LeftRemovesOne(active, order, socket);
      if order !in active {
        return;
      }
      active := active[order := active[order] - {socket}];
      if active[order] == {} {
        active := active - {order};
      }
      assert active == Left(old(active), order, socket);
    }

    /** `fails` tells whose send raises: those sockets leave the order. */
    method Broadcast(order: Room, fails: Socket -> bool)
      requires Valid()
      modifies this
      ensures Valid() && active == TableStep(old(active), Broadcasts(order, fails))
      ensures forall r: Room, s: Socket ::
        (r, s) in Pairs(active) <==> (r, s) in Pairs(old(active)) && !(r == order && fails(s))
    {
      var todo := if order in active then active[order] else {};
      var dead: seq<Socket> := [];
      while todo != {}
        invariant active == old(active)
        invariant forall s :: s in dead ==> fails(s)
        invariant forall s: Socket :: (order, s) in Pairs(active) && fails(s) ==> s in dead || s in todo
      {
        var connection :| connection in todo;
        if fails(connection) {
          dead := dead + [connection];
        }
        todo := todo - {connection};
      }
      for i := 0 to |dead|
        invariant Valid()
        invariant forall r: Room, s: Socket ::
          (r, s) in Pairs(active) <==> (r, s) in Pairs(old(active)) && !(r == order && s in dead[..i])
      {
        assert dead[..i + 1] == dead[..i] + [dead[i]];
        Disconnect(order, dead[i]);
      }
      assert dead[..|dead|] == dead;
      CleanedRemovesFailed(old(active), order, fails);
      assert Pairs(active) == Pairs(Cleaned(old(active), order, fails));
      RelationDeterminesTable(active, Cleaned(old(active), order, fails));
    }
  }

  // ---------- Connections with rooms ----------

  datatype Presence = Presence(active: set<Socket>, rooms: RoomTable)

  datatype RoomEvent = Joins(socket: Socket, rooms: seq<Room>) | Drops(socket: Socket)

  function JoinedAll(table: RoomTable, socket: Socket, joins: seq<Room>): RoomTable {
    if joins == [] then table
    else Joined(JoinedAll(table, socket, joins[..|joins| - 1]), joins[|joins| - 1], socket)
  }

  function Without(table: RoomTable, socket: Socket): RoomTable {
    map r | r in table && table[r] - {socket} != {} :: table[r] - {socket}
  }

  function PresenceStep(p: Presence, e: RoomEvent): Presence {
    match e
    case Joins(socket, rooms) => Presence(p.active + {socket}, JoinedAll(p.rooms, socket, rooms))
    case Drops(socket) => Presence(p.active - {socket}, Without(p.rooms, socket))
  }

  function RoomRelationStep(pairs: set<(Room, Socket)>, e: RoomEvent): set<(Room, Socket)> {
    match e
    case Joins(socket, rooms) => pairs + set r | r in rooms :: (r, socket)
    case Drops(socket) => set p | p in pairs && p.1 != socket
  }

  function PresenceRun(es: seq<RoomEvent>): Presence {
    if es == [] then Presence({}, map[]) else PresenceStep(PresenceRun(es[..|es| - 1]), es[|es| - 1])
  }

  function RoomRelationRun(es: seq<RoomEvent>): set<(Room, Socket)> {
    if es == [] then {} else RoomRelationStep(RoomRelationRun(es[..|es| - 1]), es[|es| - 1])
  }

  lemma {:induction false} JoinedAllAdds(table: RoomTable, socket: Socket, joins: seq<Room>)
    ensures Pairs(JoinedAll(table, socket, joins)) == Pairs(table) + set r | r in joins :: (r, socket)
    ensures NoEmptyRoom(table) ==> NoEmptyRoom(JoinedAll(table, socket, joins))
  {
    if joins != [] {
      var n := |joins| - 1;
      JoinedAllAdds(table, socket, joins[..n]);
      JoinedAddsOne(JoinedAll(table, socket, joins[..n]), joins[n], socket);
      assert joins == joins[..n] + [joins[n]];
    }
  }

  lemma WithoutRemoves(table: RoomTable, socket: Socket)
    ensures NoEmptyRoom(Without(table, socket))
    ensures Pairs(Without(table, socket)) == set p | p in Pairs(table) && p.1 != socket
  {
    var after := Without(table, socket);
    forall r: Room, s: Socket ensures (r, s) in Pairs(after) <==> (r, s) in Pairs(table) && s != socket {
      assert (r, s) in Pairs(after) <==> r in after && s in after[r];
      assert (r, s) in Pairs(table) <==> r in table && s in table[r];
    }
  }

  /** After any run no room is empty, the rooms say just what the plain relation says, and whoever is
      in a room is connected. */
  lemma {:induction false} PresenceRefinesRelation(es: seq<RoomEvent>)
    ensures var p := PresenceRun(es);
      && NoEmptyRoom(p.rooms) && Pairs(p.rooms) == RoomRelationRun(es)
      && forall pair :: pair in RoomRelationRun(es) ==> pair.1 in p.active
  {
    if es != [] {
      var before := PresenceRun(es[..|es| - 1]);
      PresenceRefinesRelation(es[..|es| - 1]);
      match es[|es| - 1]
      case Joins(socket, rooms) => JoinedAllAdds(before.rooms, socket, rooms);
      case Drops(socket) => WithoutRemoves(before.rooms, socket);
    }
  }

  /** The sockets of the real-time manager, with the rooms each one joined. */
  class RoomManager {
    var active: set<Socket>
    var rooms: RoomTable

    /** Whoever is in a room is connected. */
    ghost predicate Valid()
      reads this
    {
      NoEmptyRoom(rooms) && forall r, s :: r in rooms && s in rooms[r] ==> s in active
    }

    constructor ()
      ensures Valid() && Presence(active, rooms) == PresenceRun([])
    {
      active, rooms := {}, map[];
    }

    method Connect(socket: Socket, joins: seq<Room>)
      requires Valid()
      modifies this
      ensures Valid() && Presence(active, rooms) == PresenceStep(old(Presence(active, rooms)), Joins(socket, joins))
      ensures Pairs(rooms) == Pairs(old(rooms)) + set r | r in joins :: (r, socket)
    {
      active := active + {socket};
      for i := 0 to |joins|
        invariant active == old(active) + {socket} && rooms == JoinedAll(old(rooms), socket, joins[..i])
      {
        assert joins[..i + 1][..i] == joins[..i];
        rooms := Joined(rooms, joins[i], socket);
      }
      assert joins[..|joins|] == joins;
      JoinedAllAdds(old(rooms), socket, joins);
      forall r, s | r in rooms && s in rooms[r] ensures s in active {
        assert (r, s) in Pairs(rooms);
        assert s != socket ==> (r, s) in Pairs(old(rooms));
      }
    }

    method Disconnect(socket: Socket)
      requires Valid()
      modifies this
      ensures Valid() && Presence(active, rooms) == PresenceStep(old(Presence(active, rooms)), Drops(socket))
      ensures forall r: Room, s: Socket :: (r, s) in Pairs(rooms) <==> (r, s) in Pairs(old(rooms)) && s != socket
    {
      active := active - {socket};
      var todo := rooms.Keys;
      while todo != {}
        invariant NoEmptyRoom(rooms) && active == old(active) - {socket}
        invariant forall r: Room, s: Socket ::
          (r, s) in Pairs(rooms) <==> (r, s) in Pairs(old(rooms)) && (s != socket || r in todo)
      {
        var room :| room in todo;
        LeftRemovesOne(rooms, room, socket);
        rooms := Left(rooms, room, socket);
        todo := todo - {room};
      }
      forall r, s | r in rooms && s in rooms[r] ensures s in active {
        assert (r, s) in Pairs(rooms);
        assert (r, s) in Pairs(old(rooms));
      }
      WithoutRemoves(old(rooms), socket);
      assert Pairs(rooms) == Pairs(Without(old(rooms), socket));
      RelationDeterminesTable(rooms, Without(old(rooms), socket));
    }
  }

  // ---------- Notifying one user ----------

  /** `list.remove`: drops the first occurrence, if there is one. */
  function RemoveFirst(list: seq<Socket>, socket: Socket): (rest: seq<Socket>)
    ensures multiset(rest) == multiset(list) - multiset{socket}
  {
    if list == [] then []
    else
      assert list == [list[0]] + list[1..];
      if list[0] == socket then list[1..] else [list[0]] + RemoveFirst(list[1..], socket)
  }

  /** What it drops is the first occurrence, and only that. */
  lemma {:induction false} RemoveFirstDropsFirst(front: seq<Socket>, socket: Socket, back: seq<Socket>)
    requires socket !in front
    ensures RemoveFirst(front + ([socket] + back), socket) == front + back
  {
    var list := front + ([socket] + back);
    if front == [] {
      assert list == [socket] + back && list[1..] == back;
    } else {
      assert list[0] == front[0] && list[1..] == front[1..] + ([socket] + back);
      RemoveFirstDropsFirst(front[1..], socket, back);
      assert [front[0]] + (front[1..] + back) == front + back;
    }
  }

  /** The sockets whose send went through, by position: `fails` holds of the positions that raised. */
  function Survivors(list: seq<Socket>, fails: nat -> bool): seq<Socket> {
    if list == [] then []
    else
      Survivors(list[..|list| - 1], fails) + if fails(|list| - 1) then [] else [list[|list| - 1]]
  }

  function Failed(list: seq<Socket>, fails: nat -> bool): seq<Socket> {
    if list == [] then []
    else Failed(list[..|list| - 1], fails) + if fails(|list| - 1) then [list[|list| - 1]] else []
  }

  lemma SplitOneMore(list: seq<Socket>, dead: seq<Socket>, alive: seq<Socket>, x: Socket, failed: bool)
    requires multiset(list) == multiset(dead) + multiset(alive)
    ensures multiset(list + [x])
      == multiset(dead + if failed then [x] else []) + multiset(alive + if failed then [] else [x])
  {
  }

  lemma {:induction false} SendsSplit(list: seq<Socket>, fails: nat -> bool)
    ensures multiset(list) == multiset(Failed(list, fails)) + multiset(Survivors(list, fails))
  {
    if list != [] {
      var before, last := list[..|list| - 1], list[|list| - 1];
      var dead, alive := Failed(before, fails), Survivors(before, fails);
      SendsSplit(before, fails);
      SplitOneMore(before, dead, alive, last, fails(|list| - 1));
      assert list == before + [last];
    }
  }

  class UserRegistry {
    var connected: map<nat, seq<Socket>>

    constructor ()
      ensures connected == map[]
    {
      connected := map[];
    }

    method Register(user: nat, socket: Socket)
      modifies this
      ensures connected == old(connected)[user :=
        (if user in old(connected) then old(connected)[user] else []) + [socket]]
    {
      var list := if user in connected then connected[user] else [];
      connected := connected[user := list + [socket]];
    }

    method Unregister(user: nat, socket: Socket)
      modifies this
      ensures connected == if user in old(connected)
        then old(connected)[user := RemoveFirst(old(connected)[user], socket)] else old(connected)
    {
      if user in connected && socket in connected[user] {
        connected := connected[user := RemoveFirst(connected[user], socket)];
      } else if user in connected {
        AbsentStays(connected[user], socket);
      }
    }

    /** Every connection whose send failed goes, as often as it failed, and no other. */
    method Notify(user: nat, fails: nat -> bool)
      modifies this
      ensures user !in old(connected) ==> connected == old(connected)
      ensures user in old(connected) ==>
        && connected.Keys == old(connected).Keys
        && (forall u :: u in connected && u != user ==> connected[u] == old(connected)[u])
        && multiset(connected[user]) == multiset(Survivors(old(connected)[user], fails))
    {
      if user !in connected {
        return;
      }
      var dead := CollectDead(connected[user], fails);
      SendsSplit(connected[user], fails);
      var alive := RemoveEach(connected[user], dead);
      connected := connected[user := alive];
    }
  }

  method CollectDead(list: seq<Socket>, fails: nat -> bool) returns (dead: seq<Socket>)
    ensures dead == Failed(list, fails)
  {
    dead := [];
    for i := 0 to |list|
      invariant dead == Failed(list[..i], fails)
    {
      assert list[..i + 1][..i] == list[..i];
      if fails(i) {
        dead := dead + [list[i]];
      }
    }
    assert list[..|list|] == list;
  }

  method RemoveEach(list: seq<Socket>, dead: seq<Socket>) returns (rest: seq<Socket>)
    ensures multiset(rest) == multiset(list) - multiset(dead)
  {
    rest := list;
    for i := 0 to |dead|
      invariant multiset(rest) == multiset(list) - multiset(dead[..i])
    {
      assert dead[..i + 1] == dead[..i] + [dead[i]];
      rest := RemoveFirst(rest, dead[i]);
    }
    assert dead[..|dead|] == dead;
  }

  lemma {:induction false} AbsentStays(list: seq<Socket>, socket: Socket)
    requires socket !in list
    ensures RemoveFirst(list, socket) == list
  {
    if list != [] {
      AbsentStays(list[1..], socket);
    }
  }
}
