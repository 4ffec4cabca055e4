/** The Socket.IO event handlers over the module-level `store_users`
    registry, as a class whose methods change the registry in place.  Every
    handler is proved to do exactly what the matching function of module
    Presence says, and to keep the registry's invariants. */
module SocketManager {
  import opened Values
  import opened Presence

  /** The default of the `max_users_per_store` setting. */
  const DefaultMaxUsers: int := 2

  class Server {
    /** store id -> session ids in that store */
    var storeUsers: map<RoomKey, set<Sid>>
    /** the keys of `storeUsers` in dict insertion order */
    var keyOrder: seq<RoomKey>
    /** the configured capacity of every store */
    const maxUsers: int
    /** session['store_id'], written on every admitted join and never read */
    ghost var sessionStoreId: map<Sid, RoomKey>

    ghost function State(): Rooms
      reads this
    {
      Rooms(keyOrder, storeUsers)
    }

    ghost predicate Valid()
      reads this
    {
      && Ordered(State())
      && (maxUsers >= 0 ==> WithinCapacity(State(), maxUsers))
      && (maxUsers >= 1 ==> NoEmptyRoom(State()))
    }

    constructor (maxUsers: int := DefaultMaxUsers)
      ensures Valid()
      ensures this.maxUsers == maxUsers && State() == Empty && sessionStoreId == map[]
    {
      this.maxUsers := maxUsers;
      storeUsers := map[];
      keyOrder := [];
      sessionStoreId := map[];
    }

    /** join_store */
    method JoinStore(sid: Sid, data: Value) returns (out: seq<Outbound>)
      requires Valid()
      modifies this
      ensures Valid()
      ensures Step(State(), out) == Join(old(State()), maxUsers, sid, data)
      ensures |out| == 2 ==> RoomOf(data).Some? && sessionStoreId == old(sessionStoreId)[sid := RoomOf(data).value]
      ensures |out| != 2 ==> sessionStoreId == old(sessionStoreId)
    {
      out := [];
      var storeId := StoreIdOf(data);
      if storeId.None? {
        return;
      }
      var key := RoomKeyOf(storeId.value);
      if key.None? {
        // the dict lookup raises TypeError; the handler swallows it
        return;
      }
      out := EnterRoom(sid, key.value);
    }

    /** The body of join_store once the store id is a usable key: create the
        room if new, then refuse a newcomer to a full room or admit. */
    method EnterRoom(sid: Sid, k: RoomKey) returns (out: seq<Outbound>)
      requires Valid()
      modifies this
      ensures Valid()
      ensures Step(State(), out) == JoinRoom(old(State()), maxUsers, sid, k)
      ensures |out| == 2 ==> sessionStoreId == old(sessionStoreId)[sid := k]
      ensures |out| != 2 ==> sessionStoreId == old(sessionStoreId)
    {
      JoinRoomPreserves(State(), maxUsers, sid, k);
      if k !in storeUsers {
        storeUsers := storeUsers[k := {}];
        keyOrder := keyOrder + [k];
      }
      if |storeUsers[k]| >= maxUsers && sid !in storeUsers[k] {
        out := [Outbound(StoreFull(StoreFullMessage(maxUsers)), Session(sid), {sid})];
        return;
      }
      storeUsers := storeUsers[k := storeUsers[k] + {sid}];
      sessionStoreId := sessionStoreId[sid := k];
      var userCount := |storeUsers[k]|;
      out := [Outbound(UserCount(userCount), Room(k), storeUsers[k]),
              Outbound(MaxUsers(maxUsers), Session(sid), {sid})];
    }

    /** leave_store */
    method LeaveStore(sid: Sid, data: Value) returns (out: seq<Outbound>)
      requires Valid()
      modifies this`storeUsers, this`keyOrder
      ensures Valid()
      ensures Step(State(), out) == Leave(old(State()), sid, data)
    {
      out := [];
      var storeId := StoreIdOf(data);
      if storeId.None? {
        return;
      }
      var key := RoomKeyOf(storeId.value);
      if key.None? {
        // the dict lookup raises TypeError before anything changes
        return;
      }
      out := DropMember(sid, key.value);
    }

    /** Take `sid` out of room `k`, deleting the room if that empties it and
        otherwise broadcasting the new count to the room: the shared body of
        leave_store and of one round of the disconnect loop. */
    method DropMember(sid: Sid, k: RoomKey) returns (out: seq<Outbound>)
      requires Valid()
      modifies this`storeUsers, this`keyOrder
      ensures Valid()
      ensures Step(State(), out) == LeaveRoom(old(State()), sid, k)
    {
      LeaveRoomPreserves(State(), maxUsers, sid, k);
      out := [];
      if k in storeUsers && sid in storeUsers[k] {
        var rest := storeUsers[k] - {sid};
        if |rest| == 0 {
          storeUsers := storeUsers - {k};
          keyOrder := Without(keyOrder, k);
        } else {
          storeUsers := storeUsers[k := rest];
          out := [Outbound(UserCount(|rest|), Room(k), rest)];
        }
      }
    }

    /** disconnect: scan a snapshot of the keys and drop `sid` from each room. */
    method Disconnect(sid: Sid) returns (out: seq<Outbound>)
      requires Valid()
      modifies this`storeUsers, this`keyOrder
      ensures Valid()
      ensures Step(State(), out) == Presence.Disconnect(old(State()), sid)
      ensures forall k :: k in storeUsers ==> sid !in storeUsers[k]
      ensures forall k :: k in storeUsers <==> k in old(storeUsers) && old(storeUsers)[k] != {sid}
      ensures forall k :: k in storeUsers ==> storeUsers[k] == old(storeUsers)[k] - {sid}
    {
      DisconnectClears(State(), sid);
      out := DropFromEach(sid, keyOrder);
    }

    /** The disconnect loop: drop `sid` from each room in `keys`, in order. */
    method DropFromEach(sid: Sid, keys: seq<RoomKey>) returns (out: seq<Outbound>)
      requires Valid()
      modifies this`storeUsers, this`keyOrder
      ensures Valid()
      ensures Step(State(), out) == DisconnectFrom(old(State()), sid, keys)
    {
      ghost var initial := State();
      out := [];
      var i := 0;
      while i < |keys|
        invariant 0 <= i <= |keys|
        invariant Valid()
        invariant Step(State(), out) == DisconnectFrom(initial, sid, keys[..i])
      {
        var emitted := DropMember(sid, keys[i]);
        DisconnectFromSnoc(initial, sid, keys[..i], keys[i]);
        assert keys[..i + 1] == keys[..i] + [keys[i]];
        out := out + emitted;
        i := i + 1;
      }
      assert keys[..i] == keys;
    }

    /** handle_model_position_update: the registry is only read. */
    method ModelPositionUpdate(sid: Sid, data: Value) returns (out: seq<Outbound>)
      ensures out == RelayEdit(storeUsers, sid, data)
      ensures forall o :: o in out ==> sid !in o.recipients
    {
      out := [];
      if !data.Object? {
        // `data.get` raises AttributeError
        return;
      }
      var storeId := Get(data.fields, "storeId");
      var modelId := Get(data.fields, "modelId");
      var position := Get(data.fields, "position");
      if !(Truthy(storeId) && Truthy(modelId) && Truthy(position)) {
        return;
      }
      var key := RoomKeyOf(storeId);
      if key.Some? {
        var k := key.value;
        out := [Outbound(ModelPositionChanged(modelId, position), RoomExceptSender(k, sid),
                         Members(storeUsers, k) - {sid})];
      }
    }
  }

  /** The walkthrough of a capacity-2 store, first step: A joins by a str
      payload and is told the count and the capacity. */
  method CapacityTwoFirstJoin() returns (server: Server)
    ensures server.Valid() && server.maxUsers == 2
    ensures server.storeUsers == map[Text("s1") := {"A"}] && server.keyOrder == [Text("s1")]
  {
    server := new Server();
    var s1 := Text("s1");
    assert RoomOf(Str("s1")) == Some(s1);
    JoinAdmits(server.State(), 2, "A", Str("s1"), s1);
    var out := server.JoinStore("A", Str("s1"));
    assert out == [Outbound(UserCount(1), Room(s1), {"A"}), Outbound(MaxUsers(2), Session("A"), {"A"})];
  }

  /** B joins by a dict payload and the whole room hears the count 2. */
  method CapacityTwoSecondJoin(server: Server)
    requires server.Valid() && server.maxUsers == 2
    requires server.storeUsers == map[Text("s1") := {"A"}] && server.keyOrder == [Text("s1")]
    modifies server
    ensures server.Valid() && server.maxUsers == 2
    ensures server.storeUsers == map[Text("s1") := {"A", "B"}] && server.keyOrder == [Text("s1")]
  {
    var s1 := Text("s1");
    var byDict := Object(map["store_id" := Str("s1")]);
    assert Get(byDict.fields, "store_id") == Str("s1");
    assert RoomOf(byDict) == Some(s1);
    JoinAdmits(server.State(), 2, "B", byDict, s1);
    var out := server.JoinStore("B", byDict);
    assert {"A"} + {"B"} == {"A", "B"};
    assert out[0] == Outbound(UserCount(2), Room(s1), {"A", "B"});
  }

  /** C is turned away with the limit in the message; the room is unchanged. */
  method CapacityTwoRefusal(server: Server)
    requires server.Valid() && server.maxUsers == 2
    requires server.storeUsers == map[Text("s1") := {"A", "B"}] && server.keyOrder == [Text("s1")]
    modifies server
    ensures server.Valid() && server.maxUsers == 2
    ensures server.storeUsers == map[Text("s1") := {"A", "B"}] && server.keyOrder == [Text("s1")]
  {
    var s1 := Text("s1");
    assert RoomOf(Str("s1")) == Some(s1);
    StoreFullMessageForTwo();
    JoinRejectsWhenFull(server.State(), 2, "C", Str("s1"), s1);
    var out := server.JoinStore("C", Str("s1"));
    assert out == [Outbound(StoreFull("Store is full. Maximum 2 users allowed."), Session("C"), {"C"})];
  }

  /** A's edit reaches only B. */
  method CapacityTwoEdit(server: Server)
    requires server.storeUsers == map[Text("s1") := {"A", "B"}]
  {
    var s1 := Text("s1");
    var position := Object(map["x" := Float(1.0), "y" := Float(2.0), "z" := Float(3.0)]);
    var edit := Object(map["storeId" := Str("s1"), "modelId" := Str("m1"), "position" := position]);
    assert Get(edit.fields, "storeId") == Str("s1") && Get(edit.fields, "modelId") == Str("m1");
    assert Get(edit.fields, "position") == position && "x" in position.fields;
    var out := server.ModelPositionUpdate("A", edit);
    assert {"A", "B"} - {"A"} == {"B"};
    assert out == [Outbound(ModelPositionChanged(Str("m1"), position), RoomExceptSender(s1, "A"), {"B"})];
  }

  /** Last part: A disconnects and B is told the new count, then B leaves and
      the store is deleted without a broadcast. */
  method CapacityTwoDepartures(server: Server)
    requires server.Valid()
    requires server.storeUsers == map[Text("s1") := {"A", "B"}] && server.keyOrder == [Text("s1")]
    modifies server
    ensures server.storeUsers == map[]
  {
    var s1 := Text("s1");
    DisconnectBroadcasts(server.State(), "A");
    var m := server.storeUsers;
    assert m[s1] - {"A"} == {"B"} && m[s1] != {"A"};
    assert Broadcasts(m, "A", [s1]) == [Outbound(UserCount(1), Room(s1), {"B"})] + Broadcasts(m, "A", []);
    var out := server.Disconnect("A");
    assert out == [Outbound(UserCount(1), Room(s1), {"B"})];
    assert s1 in server.storeUsers && server.storeUsers[s1] == {"B"};
    assert server.storeUsers == map[s1 := {"B"}];
    assert RoomOf(Str("s1")) == Some(s1);
    out := server.LeaveStore("B", Str("s1"));
    assert out == [] && server.storeUsers == map[];
  }
}
