/** The room registry of the real-time presence server, as pure functions.

    A registry maps each store (room) id to the set of session ids currently
    in it.  Each inbound event (join, leave, disconnect, position edit) is one
    atomic step from a registry to a new registry and a list of outbound
    messages.  The `Server` class in module SocketManager performs the same
    steps in place and is proved equal to these functions. */
module Presence {
  import opened Values

  /** A Socket.IO session id. */
  type Sid = string

  /** A store id as a Python dict key.  Python hashes numbers by value, so
      `1`, `1.0` and `True` are one key; `str` ids and object ids are keys of
      their own. */
  datatype RoomKey = Text(name: string) | Number(value: real) | Oid(hex: string)

  /** What an outbound message carries. */
  datatype Event =
    | UserCount(count: nat)                             // 'user_count'  {'count': n}
    | StoreFull(message: string)                        // 'store_full'  {'message': ...}
    | MaxUsers(max: int)                                // 'max_users'   {'max': capacity}
    | ModelPositionChanged(modelId: Value, position: Value)  // 'model-position-changed'

  /** The `room=` / `skip_sid=` arguments of an emit. */
  datatype Address =
    | Room(key: RoomKey)                           // room=store_id
    | RoomExceptSender(key: RoomKey, skip: Sid)    // room=store_id, skip_sid=sid
    | Session(sid: Sid)                            // room=sid

  /** One emit: the event, where it was addressed, and the sessions it reaches
      given the registry at the moment of the emit. */
  datatype Outbound = Outbound(event: Event, address: Address, recipients: set<Sid>)

  /** The registry: its keys in Python dict insertion order, and the members. */
  datatype Rooms = Rooms(order: seq<RoomKey>, members: map<RoomKey, set<Sid>>)

  /** The registry after an event, with the messages the event emits in order. */
  datatype Step = Step(rooms: Rooms, out: seq<Outbound>)

  const Empty: Rooms := Rooms([], map[])

  // ---------------------------------------------------------------------
  // Invariants

  ghost predicate Distinct(keys: seq<RoomKey>) {
    forall i, j :: 0 <= i < j < |keys| ==> keys[i] != keys[j]
  }

  /** `order` lists every key of `members` exactly once. */
  ghost predicate Ordered(r: Rooms) {
    Distinct(r.order) && forall k :: k in r.members <==> k in r.order
  }

  /** No room holds more than `cap` sessions. */
  ghost predicate WithinCapacity(r: Rooms, cap: int) {
    forall k :: k in r.members ==> |r.members[k]| <= cap
  }

  /** A room is stored only while someone is in it. */
  ghost predicate NoEmptyRoom(r: Rooms) {
    forall k :: k in r.members ==> r.members[k] != {}
  }

  ghost predicate Consistent(r: Rooms, cap: int) {
    Ordered(r) && WithinCapacity(r, cap) && NoEmptyRoom(r)
  }

  // ---------------------------------------------------------------------
  // Payloads

  /** The store id a join/leave payload names: the payload itself when it is
      a str, its 'store_id' entry when it is a dict; accepted only if truthy. */
  function StoreIdOf(data: Value): (r: Option<Value>)
    ensures r.Some? <==> (data.Str? && data.s != "") || (data.Object? && Truthy(Get(data.fields, "store_id")))
    ensures r.Some? ==> Truthy(r.value) && (data.Str? ==> r.value == data)
    ensures r.Some? && data.Object? ==> r.value == Get(data.fields, "store_id")
  {
    var storeId := if data.Str? then data else if data.Object? then Get(data.fields, "store_id") else Null;
    if Truthy(storeId) then Some(storeId) else None
  }

  /** A store id the dict lookup accepts: a str, a number or an ObjectId.
      A list or dict is unhashable; None is hashable but falsy, so it never
      reaches the lookup. */
  predicate KeyLike(v: Value) {
    v.Str? || v.Int? || v.Float? || v.Bool? || v.ObjectId?
  }

  /** The Python numbers: int, float and bool, which is a subclass of int. */
  predicate Numeric(v: Value) {
    v.Int? || v.Float? || v.Bool?
  }

  /** The value a Python number stands for; `True` is 1 and `False` is 0. */
  function NumericValue(v: Value): real
    requires Numeric(v)
  {
    match v
    case Int(i) => i as real
    case Float(x) => x
    case Bool(b) => if b then 1.0 else 0.0
  }

  /** Python's `a == b` on store ids: a str equals a str with the same text,
      an ObjectId an ObjectId with the same hex, and numbers compare by
      value across int, float and bool; values of different kinds differ. */
  predicate PyEq(a: Value, b: Value) {
    if a.Str? && b.Str? then a.s == b.s
    else if a.ObjectId? && b.ObjectId? then a.hex == b.hex
    else if Numeric(a) && Numeric(b) then NumericValue(a) == NumericValue(b)
    else false
  }

  /** The dict key a store id becomes; None for the unhashable list and dict
      (Python raises TypeError on the lookup).  None itself never gets here:
      it is falsy and rejected first. */
  function RoomKeyOf(v: Value): (r: Option<RoomKey>)
    ensures r.None? <==> !KeyLike(v)
    ensures r.Some? && r.value.Text? <==> v.Str?
    ensures r.Some? && r.value.Text? ==> v == Str(r.value.name)
    ensures r.Some? && r.value.Oid? <==> v.ObjectId?
    ensures r.Some? && r.value.Oid? ==> v == ObjectId(r.value.hex)
    ensures r.Some? && r.value.Number? <==> Numeric(v)
    ensures r.Some? && r.value.Number? ==> r.value.value == NumericValue(v)
  {
    match v
    case Str(s) => Some(Text(s))
    case Int(i) => Some(Number(i as real))
    case Float(x) => Some(Number(x))
    case Bool(b) => Some(Number(if b then 1.0 else 0.0))
    case ObjectId(h) => Some(Oid(h))
    case Null => None
    case List(_) => None
    case Object(_) => None
  }

  /** Python's key equality: `1`, `1.0` and `True` are one store, `0` and
      `False` another; a str id never equals a number or an object id. */
  lemma RoomKeysFollowPythonHashing()
    ensures RoomKeyOf(Int(1)) == RoomKeyOf(Float(1.0)) == RoomKeyOf(Bool(true))
    ensures RoomKeyOf(Int(0)) == RoomKeyOf(Bool(false))
    ensures RoomKeyOf(Int(0)) != RoomKeyOf(Int(1))
    ensures RoomKeyOf(Float(0.5)) != RoomKeyOf(Int(0))
    ensures forall i: int :: RoomKeyOf(Str(DecimalString(i))) != RoomKeyOf(Int(i))
    ensures forall h :: RoomKeyOf(Str(h)) != RoomKeyOf(ObjectId(h))
  {
  }

  /** Two store ids name the same room exactly when Python finds them equal
      (hashable values that are equal hash alike). */
  lemma RoomKeyOfIsPythonEquality(a: Value, b: Value)
    requires KeyLike(a) && KeyLike(b)
    ensures RoomKeyOf(a) == RoomKeyOf(b) <==> PyEq(a, b)
  {
  }

  /** The room a join/leave payload designates, if any. */
  function RoomOf(data: Value): (r: Option<RoomKey>)
    ensures data.Str? && data.s != "" ==> r == Some(Text(data.s))
    ensures data.Object? ==> var id := Get(data.fields, "store_id");
                             r.Some? <==> Truthy(id) && KeyLike(id)
    ensures data.Object? && r.Some? ==> r == RoomKeyOf(Get(data.fields, "store_id"))
    ensures r.Some? ==> (data.Str? && data.s != "") || data.Object?
  {
    match StoreIdOf(data)
    case None => None
    case Some(v) => RoomKeyOf(v)
  }

  function Members(m: map<RoomKey, set<Sid>>, k: RoomKey): set<Sid> {
    if k in m then m[k] else {}
  }

  /** The refusal text; the capacity in it reads back as the capacity. */
  function StoreFullMessage(cap: int): (msg: string)
    ensures |msg| >= 23 + 15
    ensures msg[..23] == "Store is full. Maximum "
    ensures msg[|msg| - 15..] == " users allowed."
    ensures ParseDecimal(msg[23..|msg| - 15]) == cap
    ensures msg[23..|msg| - 15] == DecimalString(cap)
  {
    DecimalRoundTrip(cap);
    var digits := DecimalString(cap);
    var msg := "Store is full. Maximum " + digits + " users allowed.";
    assert msg[23..|msg| - 15] == digits;
    msg
  }

  /** The message a capacity-2 store sends to a refused joiner. */
  lemma StoreFullMessageForTwo()
    ensures StoreFullMessage(2) == "Store is full. Maximum 2 users allowed."
  {
    assert DigitChar(2) == '2';
    assert DecimalString(2) == "2";
  }

  /** `order` with `k` taken out, as `del` does to a dict's key order. */
  function Without(keys: seq<RoomKey>, k: RoomKey): (r: seq<RoomKey>)
    ensures forall x :: x in r <==> x in keys && x != k
    ensures Distinct(keys) ==> Distinct(r)
  {
    if keys == [] then []
    else
      var rest := Without(keys[1..], k);
      assert Distinct(keys) ==> keys[0] !in keys[1..] && Distinct(keys[1..]);
      if keys[0] == k then rest else [keys[0]] + rest
  }

  /** `del` splices the key out: the keys before it and after it keep
      their order. */
  lemma {:induction false} WithoutSplices(before: seq<RoomKey>, k: RoomKey, after: seq<RoomKey>)
    requires k !in before && k !in after
    ensures Without(before + [k] + after, k) == before + after
    decreases |before|
  {
    if before == [] {
      assert before + [k] + after == [k] + after;
      assert ([k] + after)[1..] == after;
      WithoutAbsent(after, k);
    } else {
      var keys := before + [k] + after;
      var tail := before[1..] + [k] + after;
      assert keys[0] == before[0] && keys[0] != k;
      assert keys[1..] == tail;
      WithoutSplices(before[1..], k, after);
      assert Without(keys, k) == [before[0]] + (before[1..] + after);
      assert before + after == [before[0]] + (before[1..] + after);
    }
  }

  /** Deleting a key that is not there leaves the order as it was. */
  lemma {:induction false} WithoutAbsent(keys: seq<RoomKey>, k: RoomKey)
    requires k !in keys
    ensures Without(keys, k) == keys
    decreases |keys|
  {
    if keys != [] {
      WithoutAbsent(keys[1..], k);
      assert keys == [keys[0]] + keys[1..];
    }
  }

  // ---------------------------------------------------------------------
  // Events

  /** join_store once the room key is known: create the room if new (before
      the capacity check), refuse a newcomer to a full room, otherwise add the
      session, broadcast the new count to the room and send the capacity to
      the joiner. */
  function JoinRoom(r: Rooms, cap: int, sid: Sid, k: RoomKey): (s: Step)
    ensures k in s.rooms.members
    ensures s.rooms.members[k] - {sid} == Members(r.members, k) - {sid}
    ensures sid in s.rooms.members[k] <==> |s.out| == 2
    ensures |s.out| == 1 ==> s.out[0].recipients == {sid}
  {
    var created := if k in r.members then r else Rooms(r.order + [k], r.members[k := {}]);
    var m := created.members[k];
    if |m| >= cap && sid !in m then
      Step(created, [Outbound(StoreFull(StoreFullMessage(cap)), Session(sid), {sid})])
    else
      var joined := m + {sid};
      Step(Rooms(created.order, created.members[k := joined]),
           [Outbound(UserCount(|joined|), Room(k), joined), Outbound(MaxUsers(cap), Session(sid), {sid})])
  }

  /** join_store: payloads naming no usable store id change nothing and emit nothing. */
  function Join(r: Rooms, cap: int, sid: Sid, data: Value): (s: Step)
    ensures RoomOf(data).None? ==> s == Step(r, [])
    ensures forall k :: k in r.members && RoomOf(data) != Some(k)
                        ==> k in s.rooms.members && s.rooms.members[k] == r.members[k]
    ensures forall k :: k in s.rooms.members ==> k in r.members || RoomOf(data) == Some(k)
  {
    match RoomOf(data)
    case None => Step(r, [])
    case Some(k) => JoinRoomShape(r, cap, sid, k); JoinRoom(r, cap, sid, k)
  }

  /** Removing a member from one room: leave_store's body and one round of
      the disconnect loop.  The emptied room is deleted without a broadcast. */
  function LeaveRoom(r: Rooms, sid: Sid, k: RoomKey): (s: Step)
    ensures forall k' :: k' in s.rooms.members ==> k' in r.members
    ensures k in s.rooms.members ==> s.rooms.members[k] == r.members[k] - {sid}
    ensures |s.out| <= 1
    ensures forall o :: o in s.out ==> sid !in o.recipients && o.recipients != {}
  {
    if k in r.members && sid in r.members[k] then
      var rest := r.members[k] - {sid};
      if |rest| == 0 then Step(Rooms(Without(r.order, k), r.members - {k}), [])
      else Step(Rooms(r.order, r.members[k := rest]), [Outbound(UserCount(|rest|), Room(k), rest)])
    else Step(r, [])
  }

  /** leave_store. */
  function Leave(r: Rooms, sid: Sid, data: Value): (s: Step)
    ensures RoomOf(data).None? ==> s == Step(r, [])
    ensures forall k :: k in s.rooms.members ==> k in r.members
    ensures forall o :: o in s.out ==> sid !in o.recipients
  {
    match RoomOf(data)
    case None => Step(r, [])
    case Some(k) => LeaveRoom(r, sid, k)
  }

  /** The disconnect loop over a snapshot of the keys, first to last. */
  function DisconnectFrom(r: Rooms, sid: Sid, keys: seq<RoomKey>): (s: Step)
    ensures forall k :: k in s.rooms.members ==> k in r.members
    ensures |s.out| <= |keys|
    ensures forall o :: o in s.out ==> sid !in o.recipients
    decreases |keys|
  {
    if keys == [] then Step(r, [])
    else
      var first := LeaveRoom(r, sid, keys[0]);
      var rest := DisconnectFrom(first.rooms, sid, keys[1..]);
      Step(rest.rooms, first.out + rest.out)
  }

  /** disconnect: drop the session from every room, in key order. */
  function Disconnect(r: Rooms, sid: Sid): (s: Step)
    ensures forall k :: k in s.rooms.members ==> k in r.members
    ensures |s.out| <= |r.order|
    ensures forall o :: o in s.out ==> sid !in o.recipients
  {
    DisconnectFrom(r, sid, r.order)
  }

  /** handle_model_position_update: relay {modelId, position} to the store's
      room, skipping the sender, when all three fields are truthy.  A payload
      that is not a dict has no `.get` and emits nothing. */
  function RelayEdit(m: map<RoomKey, set<Sid>>, sid: Sid, data: Value): (out: seq<Outbound>)
    ensures |out| <= 1
    ensures forall o :: o in out ==> && o.event.ModelPositionChanged?
                                     && o.address.RoomExceptSender? && o.address.skip == sid
                                     && o.recipients == Members(m, o.address.key) - {sid}
  {
    if !data.Object? then []
    else
      var storeId := Get(data.fields, "storeId");
      var modelId := Get(data.fields, "modelId");
      var position := Get(data.fields, "position");
      if !(Truthy(storeId) && Truthy(modelId) && Truthy(position)) then []
      else
        match RoomKeyOf(storeId)
        case None => []
        case Some(k) =>
          [Outbound(ModelPositionChanged(modelId, position), RoomExceptSender(k, sid), Members(m, k) - {sid})]
  }

  /** An inbound Socket.IO event. */
  datatype Inbound =
    | JoinStore(sid: Sid, data: Value)
    | LeaveStore(sid: Sid, data: Value)
    | Disconnected(sid: Sid)
    | ModelPositionUpdate(sid: Sid, data: Value)

  /** One event, routed to its handler.  Only a join creates a room, and
      only the one it names; an edit never changes the registry; the sender
      of a leave, a disconnect or an edit is never among the recipients. */
  function Handle(r: Rooms, cap: int, e: Inbound): (s: Step)
    ensures forall k :: k in s.rooms.members ==> k in r.members || (e.JoinStore? && RoomOf(e.data) == Some(k))
    ensures e.ModelPositionUpdate? ==> s.rooms == r
    ensures !e.JoinStore? ==> forall o :: o in s.out ==> e.sid !in o.recipients
    ensures e.JoinStore? ==> s == Join(r, cap, e.sid, e.data)
    ensures e.LeaveStore? ==> s == Leave(r, e.sid, e.data)
    ensures e.Disconnected? ==> s == Disconnect(r, e.sid)
    ensures e.ModelPositionUpdate? ==> s == Step(r, RelayEdit(r.members, e.sid, e.data))
  {
    match e
    case JoinStore(sid, data) => Join(r, cap, sid, data)
    case LeaveStore(sid, data) => Leave(r, sid, data)
    case Disconnected(sid) => Disconnect(r, sid)
    case ModelPositionUpdate(sid, data) => Step(r, RelayEdit(r.members, sid, data))
  }

  /** The registry after handling `events` one at a time, starting from `r`. */
  function Replay(r: Rooms, cap: int, events: seq<Inbound>): Rooms
    decreases |events|
  {
    if events == [] then r else Replay(Handle(r, cap, events[0]).rooms, cap, events[1..])
  }

  // ---------------------------------------------------------------------
  // Join

  /** A payload that is neither a non-empty str nor a dict with a truthy
      'store_id' is ignored. */
  lemma JoinIgnoresMalformed(r: Rooms, cap: int, sid: Sid, data: Value)
    requires !((data.Str? && data.s != "") || (data.Object? && Truthy(Get(data.fields, "store_id"))))
    ensures Join(r, cap, sid, data) == Step(r, [])
  {
  }

  /** A newcomer to a room already holding `cap` or more sessions gets only
      'store_full', addressed to itself, and the room is unchanged. */
  lemma JoinRejectsWhenFull(r: Rooms, cap: int, sid: Sid, data: Value, k: RoomKey)
    requires RoomOf(data) == Some(k) && k in r.members
    requires |r.members[k]| >= cap && sid !in r.members[k]
    ensures Join(r, cap, sid, data).rooms == r
    ensures Join(r, cap, sid, data).out
         == [Outbound(StoreFull("Store is full. Maximum " + DecimalString(cap) + " users allowed."), Session(sid), {sid})]
  {
  }

  /** Joining a room one is already in changes nothing, yet the count is
      broadcast again and the capacity is sent again. */
  lemma JoinIsIdempotentForMember(r: Rooms, cap: int, sid: Sid, data: Value, k: RoomKey)
    requires RoomOf(data) == Some(k) && k in r.members && sid in r.members[k]
    ensures Join(r, cap, sid, data).rooms == r
    ensures Join(r, cap, sid, data).out
         == [Outbound(UserCount(|r.members[k]|), Room(k), r.members[k]), Outbound(MaxUsers(cap), Session(sid), {sid})]
  {
    assert r.members[k] + {sid} == r.members[k];
    assert r.members[k := r.members[k]] == r.members;
  }

  /** An admitted join adds the session to the room (creating the room at the
      end of the key order if new), broadcasts the new size to the whole room,
      then sends the capacity to the joiner alone. */
  lemma JoinAdmits(r: Rooms, cap: int, sid: Sid, data: Value, k: RoomKey)
    requires RoomOf(data) == Some(k)
    requires |Members(r.members, k)| < cap || sid in Members(r.members, k)
    ensures var s := Join(r, cap, sid, data);
      && s.rooms.members == r.members[k := Members(r.members, k) + {sid}]
      && s.rooms.order == (if k in r.members then r.order else r.order + [k])
      && s.out == [Outbound(UserCount(|Members(r.members, k) + {sid}|), Room(k), Members(r.members, k) + {sid}),
                   Outbound(MaxUsers(cap), Session(sid), {sid})]
      && sid in s.rooms.members[k]
  {
  }

  /** The count broadcast after an admitted join is never above capacity when
      the room was within capacity. */
  lemma JoinCountWithinCapacity(r: Rooms, cap: int, sid: Sid, data: Value)
    requires WithinCapacity(r, cap)
    ensures forall o :: o in Join(r, cap, sid, data).out && o.event.UserCount? ==> o.event.count <= cap
  {
    var s := Join(r, cap, sid, data);
    match RoomOf(data)
    case None =>
    case Some(k) =>
      var m := Members(r.members, k);
      if !(|m| >= cap && sid !in m) && sid !in m {
        assert |m + {sid}| == |m| + 1;
      } else if !(|m| >= cap && sid !in m) {
        assert m + {sid} == m;
      }
  }

  /** Setting room `k`, appending it to the key order if new, keeps the key
      order consistent with the map. */
  lemma OrderedSetRoom(r: Rooms, k: RoomKey, v: set<Sid>)
    requires Ordered(r)
    ensures Ordered(Rooms(if k in r.members then r.order else r.order + [k], r.members[k := v]))
  {
    if k !in r.members {
      assert forall i :: 0 <= i < |r.order| ==> r.order[i] != k;
    }
  }

  /** Setting one room to `v` keeps the capacity invariant when `v` fits. */
  lemma SetRoomWithinCapacity(r: Rooms, cap: int, k: RoomKey, v: set<Sid>, order: seq<RoomKey>)
    requires WithinCapacity(r, cap) && |v| <= cap
    ensures WithinCapacity(Rooms(order, r.members[k := v]), cap)
  {
  }

  /** Setting one room to a non-empty `v` keeps every room non-empty. */
  lemma SetRoomNonEmpty(r: Rooms, k: RoomKey, v: set<Sid>, order: seq<RoomKey>)
    requires NoEmptyRoom(r) && v != {}
    ensures NoEmptyRoom(Rooms(order, r.members[k := v]))
  {
  }

  /** A join to room `k` only sets that room: to itself when refused, with
      `sid` added when admitted. */
  lemma JoinRoomShape(r: Rooms, cap: int, sid: Sid, k: RoomKey)
    ensures var m := Members(r.members, k);
      JoinRoom(r, cap, sid, k).rooms
        == Rooms(if k in r.members then r.order else r.order + [k],
                 r.members[k := if |m| >= cap && sid !in m then m else m + {sid}])
  {
    if k in r.members {
      assert r.members[k := r.members[k]] == r.members;
    }
  }

  lemma JoinRoomPreserves(r: Rooms, cap: int, sid: Sid, k: RoomKey)
    requires Ordered(r)
    ensures Ordered(JoinRoom(r, cap, sid, k).rooms)
    ensures cap >= 0 && WithinCapacity(r, cap) ==> WithinCapacity(JoinRoom(r, cap, sid, k).rooms, cap)
    ensures cap >= 1 && NoEmptyRoom(r) ==> NoEmptyRoom(JoinRoom(r, cap, sid, k).rooms)
  {
    var m := Members(r.members, k);
    var order := if k in r.members then r.order else r.order + [k];
    var v := if |m| >= cap && sid !in m then m else m + {sid};
    JoinRoomShape(r, cap, sid, k);
    OrderedSetRoom(r, k, v);
    if cap >= 0 && WithinCapacity(r, cap) {
      assert |m| <= cap;
      if v == m + {sid} && sid !in m {
        assert |m + {sid}| == |m| + 1;
      } else if v == m + {sid} {
        assert m + {sid} == m;
      }
      SetRoomWithinCapacity(r, cap, k, v, order);
    }
    if cap >= 1 && NoEmptyRoom(r) {
      assert v == m + {sid} || m != {};
      SetRoomNonEmpty(r, k, v, order);
    }
  }

  lemma JoinPreserves(r: Rooms, cap: int, sid: Sid, data: Value)
    requires Ordered(r)
    ensures Ordered(Join(r, cap, sid, data).rooms)
    ensures cap >= 0 && WithinCapacity(r, cap) ==> WithinCapacity(Join(r, cap, sid, data).rooms, cap)
    ensures cap >= 1 && NoEmptyRoom(r) ==> NoEmptyRoom(Join(r, cap, sid, data).rooms)
  {
    if RoomOf(data).Some? {
      JoinRoomPreserves(r, cap, sid, RoomOf(data).value);
    }
  }

  /** With capacity 0 a join to a new store leaves an empty room behind: the
      room is created before the capacity check.  The "no empty room"
      invariant needs a capacity of at least 1. */
  lemma ZeroCapacityLeavesEmptyRoom()
    ensures Join(Empty, 0, "a", Str("s1")).rooms.members == map[Text("s1") := {}]
    ensures !NoEmptyRoom(Join(Empty, 0, "a", Str("s1")).rooms)
  {
  }

  // ---------------------------------------------------------------------
  // Leave

  /** Leaving a room one is not in (or that does not exist) does nothing. */
  lemma LeaveIgnoresNonMember(r: Rooms, sid: Sid, data: Value)
    requires match RoomOf(data) case None => true case Some(k) => sid !in Members(r.members, k)
    ensures Leave(r, sid, data) == Step(r, [])
  {
  }

  /** Leaving removes the session; the room is deleted when that empties it,
      otherwise the remaining members get the new count. */
  lemma LeaveRemoves(r: Rooms, sid: Sid, data: Value, k: RoomKey)
    requires RoomOf(data) == Some(k) && k in r.members && sid in r.members[k]
    ensures var s := Leave(r, sid, data);
      var rest := r.members[k] - {sid};
      && (rest == {} ==> s.rooms.members == r.members - {k} && s.out == [])
      && (rest != {} ==> s.rooms.members == r.members[k := rest]
                         && s.out == [Outbound(UserCount(|rest|), Room(k), rest)])
  {
  }

  lemma LeaveRoomPreserves(r: Rooms, cap: int, sid: Sid, k: RoomKey)
    requires Ordered(r)
    ensures Ordered(LeaveRoom(r, sid, k).rooms)
    ensures WithinCapacity(r, cap) ==> WithinCapacity(LeaveRoom(r, sid, k).rooms, cap)
    ensures NoEmptyRoom(r) ==> NoEmptyRoom(LeaveRoom(r, sid, k).rooms)
  {
  }

  /** Removing a member from room `k`: the room survives unless `sid` was
      alone in it, and loses exactly `sid`. */
  lemma LeaveRoomEffect(r: Rooms, sid: Sid, k: RoomKey)
    ensures var m' := LeaveRoom(r, sid, k).rooms.members;
      && (k in m' <==> k in r.members && r.members[k] != {sid})
      && (k in m' ==> m'[k] == r.members[k] - {sid})
  {
    if k in r.members && sid in r.members[k] {
      assert |r.members[k] - {sid}| == 0 <==> r.members[k] == {sid};
    }
  }

  /** Leaving room `k` changes no other room. */
  lemma LeaveRoomTouchesOnlyItsRoom(r: Rooms, sid: Sid, k: RoomKey)
    ensures forall k' :: k' != k ==> (k' in LeaveRoom(r, sid, k).rooms.members <==> k' in r.members)
    ensures forall k' :: k' != k && k' in r.members ==> LeaveRoom(r, sid, k).rooms.members[k'] == r.members[k']
  {
  }

  // ---------------------------------------------------------------------
  // Disconnect

  lemma {:induction false} DisconnectFromPreserves(r: Rooms, cap: int, sid: Sid, keys: seq<RoomKey>)
    requires Ordered(r)
    ensures Ordered(DisconnectFrom(r, sid, keys).rooms)
    ensures WithinCapacity(r, cap) ==> WithinCapacity(DisconnectFrom(r, sid, keys).rooms, cap)
    ensures NoEmptyRoom(r) ==> NoEmptyRoom(DisconnectFrom(r, sid, keys).rooms)
    decreases |keys|
  {
    if keys != [] {
      LeaveRoomPreserves(r, cap, sid, keys[0]);
      DisconnectFromPreserves(LeaveRoom(r, sid, keys[0]).rooms, cap, sid, keys[1..]);
    }
  }

  /** Each room named in `keys` loses `sid` (and is gone if `sid` was its
      only member); every other room is untouched. */
  lemma {:induction false} DisconnectFromEffect(r: Rooms, sid: Sid, keys: seq<RoomKey>, k: RoomKey)
    ensures var m' := DisconnectFrom(r, sid, keys).rooms.members;
      if k in keys then
        && (k in m' <==> k in r.members && r.members[k] != {sid})
        && (k in m' ==> m'[k] == r.members[k] - {sid})
      else
        && (k in m' <==> k in r.members)
        && (k in m' ==> m'[k] == r.members[k])
    decreases |keys|
  {
    if keys != [] {
      var k0 := keys[0];
      var s := LeaveRoom(r, sid, k0).rooms;
      assert DisconnectFrom(r, sid, keys).rooms == DisconnectFrom(s, sid, keys[1..]).rooms;
      assert k in keys <==> k == k0 || k in keys[1..] by {
        assert keys == [k0] + keys[1..];
      }
      DisconnectFromEffect(s, sid, keys[1..], k);
      if k == k0 {
        LeaveRoomEffect(r, sid, k);
      } else {
        LeaveRoomTouchesOnlyItsRoom(r, sid, k0);
      }
    }
  }

  /** The loop over `keys` and then one more room `k`: the state after the
      prefix, then one more round. */
  lemma {:induction false} DisconnectFromSnoc(r: Rooms, sid: Sid, keys: seq<RoomKey>, k: RoomKey)
    ensures var prefix := DisconnectFrom(r, sid, keys);
      var last := LeaveRoom(prefix.rooms, sid, k);
      DisconnectFrom(r, sid, keys + [k]) == Step(last.rooms, prefix.out + last.out)
    decreases |keys|
  {
    if keys == [] {
      assert keys + [k] == [k] && [k][1..] == [];
    } else {
      var first := LeaveRoom(r, sid, keys[0]);
      assert (keys + [k])[0] == keys[0] && (keys + [k])[1..] == keys[1..] + [k];
      DisconnectFromSnoc(first.rooms, sid, keys[1..], k);
      var prefix := DisconnectFrom(first.rooms, sid, keys[1..]);
      var last := LeaveRoom(prefix.rooms, sid, k);
      assert first.out + (prefix.out + last.out) == (first.out + prefix.out) + last.out;
    }
  }

  /** After a disconnect the session is in no room, rooms it was the last
      member of are deleted, the others lost exactly it, and rooms it was not
      in are unchanged. */
  lemma DisconnectClears(r: Rooms, sid: Sid)
    requires Ordered(r)
    ensures var m' := Disconnect(r, sid).rooms.members;
      && (forall k :: k in m' ==> sid !in m'[k])
      && (forall k :: k in m' <==> k in r.members && r.members[k] != {sid})
      && (forall k :: k in m' ==> m'[k] == r.members[k] - {sid})
      && (forall k :: k in r.members && sid !in r.members[k] ==> k in m' && m'[k] == r.members[k])
  {
    var m' := Disconnect(r, sid).rooms.members;
    forall k ensures (k in m' <==> k in r.members && r.members[k] != {sid}) && (k in m' ==> m'[k] == r.members[k] - {sid}) {
      DisconnectFromEffect(r, sid, r.order, k);
    }
  }

  /** The broadcasts a disconnect owes, read off the registry before it:
      one 'user_count' per room in `keys` that holds `sid` and someone else,
      in key order, to the members left behind. */
  function Broadcasts(m: map<RoomKey, set<Sid>>, sid: Sid, keys: seq<RoomKey>): (b: seq<Outbound>)
    ensures |b| <= |keys|
    ensures forall o :: o in b ==> sid !in o.recipients && o.recipients != {}
    decreases |keys|
  {
    if keys == [] then []
    else
      var k := keys[0];
      (if k in m && sid in m[k] && m[k] != {sid}
       then [Outbound(UserCount(|m[k] - {sid}|), Room(k), m[k] - {sid})] else [])
      + Broadcasts(m, sid, keys[1..])
  }

  lemma {:induction false} BroadcastsFrame(m1: map<RoomKey, set<Sid>>, m2: map<RoomKey, set<Sid>>, sid: Sid, keys: seq<RoomKey>)
    requires forall k :: k in keys ==> (k in m1 <==> k in m2) && (k in m1 ==> m1[k] == m2[k])
    ensures Broadcasts(m1, sid, keys) == Broadcasts(m2, sid, keys)
    decreases |keys|
  {
    if keys != [] {
      BroadcastsFrame(m1, m2, sid, keys[1..]);
    }
  }

  /** The messages the disconnect loop emits are exactly `Broadcasts`. */
  lemma {:induction false} DisconnectFromOut(r: Rooms, sid: Sid, keys: seq<RoomKey>)
    requires Distinct(keys)
    ensures DisconnectFrom(r, sid, keys).out == Broadcasts(r.members, sid, keys)
    decreases |keys|
  {
    if keys != [] {
      var k := keys[0];
      var s := LeaveRoom(r, sid, k).rooms;
      assert Distinct(keys[1..]);
      DisconnectFromOut(s, sid, keys[1..]);
      assert k !in keys[1..];
      BroadcastsFrame(s.members, r.members, sid, keys[1..]);
      if k in r.members && sid in r.members[k] {
        assert |r.members[k] - {sid}| == 0 <==> r.members[k] == {sid};
      }
    }
  }

  /** Whether `b` holds a message addressed to room `k`. */
  ghost predicate Announces(b: seq<Outbound>, k: RoomKey) {
    exists i :: 0 <= i < |b| && b[i].address == Room(k)
  }

  /** No two messages of `b` share an address. */
  ghost predicate DistinctAddresses(b: seq<Outbound>) {
    forall i, j :: 0 <= i < j < |b| ==> b[i].address != b[j].address
  }

  lemma AnnouncesCons(x: Outbound, tail: seq<Outbound>, k: RoomKey)
    ensures Announces([x] + tail, k) <==> x.address == Room(k) || Announces(tail, k)
  {
    var b := [x] + tail;
    assert b[0] == x;
    if Announces(b, k) && x.address != Room(k) {
      var i :| 0 <= i < |b| && b[i].address == Room(k);
      assert tail[i - 1] == b[i];
    }
    if Announces(tail, k) {
      var i :| 0 <= i < |tail| && tail[i].address == Room(k);
      assert b[i + 1] == tail[i];
    }
  }

  lemma DistinctAddressesCons(x: Outbound, tail: seq<Outbound>)
    requires x.address.Room? && !Announces(tail, x.address.key) && DistinctAddresses(tail)
    ensures DistinctAddresses([x] + tail)
  {
    var b := [x] + tail;
    forall i, j | 0 <= i < j < |b| ensures b[i].address != b[j].address {
      assert b[j] == tail[j - 1];
      if i > 0 {
        assert b[i] == tail[i - 1];
      }
    }
  }

  /** Every message of `b` is a 'user_count' addressed to a room. */
  ghost predicate RoomCounts(b: seq<Outbound>) {
    forall i :: 0 <= i < |b| ==> b[i].address.Room? && b[i].event.UserCount?
  }

  /** Every owed broadcast is a 'user_count' addressed to a room. */
  lemma {:induction false} BroadcastsAreRoomCounts(m: map<RoomKey, set<Sid>>, sid: Sid, keys: seq<RoomKey>)
    ensures RoomCounts(Broadcasts(m, sid, keys))
    decreases |keys|
  {
    if keys != [] {
      var k := keys[0];
      var tail := Broadcasts(m, sid, keys[1..]);
      BroadcastsAreRoomCounts(m, sid, keys[1..]);
      if k in m && sid in m[k] && m[k] != {sid} {
        var b := Broadcasts(m, sid, keys);
        assert b == [Outbound(UserCount(|m[k] - {sid}|), Room(k), m[k] - {sid})] + tail;
        assert forall i :: 1 <= i < |b| ==> b[i] == tail[i - 1];
      } else {
        assert Broadcasts(m, sid, keys) == tail;
      }
    }
  }

  /** A room is announced exactly when it is scanned, held `sid` and held
      someone else too. */
  lemma {:induction false} BroadcastsAnnounce(m: map<RoomKey, set<Sid>>, sid: Sid, keys: seq<RoomKey>, k: RoomKey)
    ensures Announces(Broadcasts(m, sid, keys), k) <==> k in keys && k in m && sid in m[k] && m[k] != {sid}
    decreases |keys|
  {
    if keys != [] {
      var k0 := keys[0];
      var tail := Broadcasts(m, sid, keys[1..]);
      BroadcastsAnnounce(m, sid, keys[1..], k);
      assert keys == [k0] + keys[1..];
      if k0 in m && sid in m[k0] && m[k0] != {sid} {
        AnnouncesCons(Outbound(UserCount(|m[k0] - {sid}|), Room(k0), m[k0] - {sid}), tail, k);
      } else {
        assert Broadcasts(m, sid, keys) == tail;
      }
    }
  }

  /** Over distinct keys no room is announced twice. */
  lemma {:induction false} BroadcastsDistinct(m: map<RoomKey, set<Sid>>, sid: Sid, keys: seq<RoomKey>)
    requires Distinct(keys)
    ensures DistinctAddresses(Broadcasts(m, sid, keys))
    decreases |keys|
  {
    if keys != [] {
      var k := keys[0];
      var tail := Broadcasts(m, sid, keys[1..]);
      assert Distinct(keys[1..]);
      BroadcastsDistinct(m, sid, keys[1..]);
      if k in m && sid in m[k] && m[k] != {sid} {
        assert k !in keys[1..];
        BroadcastsAnnounce(m, sid, keys[1..], k);
        DistinctAddressesCons(Outbound(UserCount(|m[k] - {sid}|), Room(k), m[k] - {sid}), tail);
      } else {
        assert Broadcasts(m, sid, keys) == tail;
      }
    }
  }

  /** Every room that lost `sid` and still has members gets exactly one
      'user_count', and no other room gets one. */
  lemma BroadcastsOncePerRoom(m: map<RoomKey, set<Sid>>, sid: Sid, keys: seq<RoomKey>)
    requires Distinct(keys)
    ensures var b := Broadcasts(m, sid, keys);
      && RoomCounts(b)
      && (forall k :: Announces(b, k) <==> k in keys && k in m && sid in m[k] && m[k] != {sid})
      && DistinctAddresses(b)
  {
    BroadcastsAreRoomCounts(m, sid, keys);
    BroadcastsDistinct(m, sid, keys);
    forall k ensures Announces(Broadcasts(m, sid, keys), k) <==> k in keys && k in m && sid in m[k] && m[k] != {sid} {
      BroadcastsAnnounce(m, sid, keys, k);
    }
  }

  /** Disconnect emits one 'user_count' per room it left non-empty, to the
      members left behind, and nothing else. */
  lemma DisconnectBroadcasts(r: Rooms, sid: Sid)
    requires Ordered(r)
    ensures var out := Disconnect(r, sid).out;
      && out == Broadcasts(r.members, sid, r.order)
      && (forall k :: Announces(out, k)
                   <==> k in r.members && sid in r.members[k] && r.members[k] != {sid})
      && DistinctAddresses(out)
  {
    DisconnectFromOut(r, sid, r.order);
    BroadcastsOncePerRoom(r.members, sid, r.order);
  }

  // ---------------------------------------------------------------------
  // Position edits

  /** An edit is never relayed back to its sender. */
  lemma RelayNeverToSender(m: map<RoomKey, set<Sid>>, sid: Sid, data: Value)
    ensures forall o :: o in RelayEdit(m, sid, data) ==> sid !in o.recipients
  {
  }

  /** A payload that is not a dict, or that lacks a truthy storeId, modelId
      or position, is dropped. */
  lemma RelayDropsIncomplete(m: map<RoomKey, set<Sid>>, sid: Sid, data: Value)
    requires !data.Object? || !Truthy(Get(data.fields, "storeId"))
          || !Truthy(Get(data.fields, "modelId")) || !Truthy(Get(data.fields, "position"))
    ensures RelayEdit(m, sid, data) == []
  {
  }

  /** A complete edit produces exactly one 'model-position-changed' carrying
      the modelId and position, to every member of the store but the sender,
      whether or not the sender is a member itself. */
  lemma RelayWellFormed(m: map<RoomKey, set<Sid>>, sid: Sid, fields: map<string, Value>, k: RoomKey)
    requires Truthy(Get(fields, "storeId")) && Truthy(Get(fields, "modelId")) && Truthy(Get(fields, "position"))
    requires RoomKeyOf(Get(fields, "storeId")) == Some(k)
    ensures RelayEdit(m, sid, Object(fields))
         == [Outbound(ModelPositionChanged(fields["modelId"], fields["position"]),
                      RoomExceptSender(k, sid), Members(m, k) - {sid})]
  {
  }

  // ---------------------------------------------------------------------
  // Whole runs

  lemma HandlePreserves(r: Rooms, cap: int, e: Inbound)
    requires cap >= 1 && Consistent(r, cap)
    ensures Consistent(Handle(r, cap, e).rooms, cap)
  {
    match e
    case JoinStore(sid, data) => JoinPreserves(r, cap, sid, data);
    case LeaveStore(sid, data) =>
      if RoomOf(data).Some? {
        LeaveRoomPreserves(r, cap, sid, RoomOf(data).value);
      }
    case Disconnected(sid) => DisconnectFromPreserves(r, cap, sid, r.order);
    case ModelPositionUpdate(_, _) =>
  }

  /** From an empty registry and a capacity of at least 1, no run of events
      ever puts more than `cap` sessions in a room or keeps an empty room. */
  lemma {:induction false} ReplayConsistent(r: Rooms, cap: int, events: seq<Inbound>)
    requires cap >= 1 && Consistent(r, cap)
    ensures Consistent(Replay(r, cap, events), cap)
    decreases |events|
  {
    if events != [] {
      HandlePreserves(r, cap, events[0]);
      ReplayConsistent(Handle(r, cap, events[0]).rooms, cap, events[1..]);
    }
  }

  lemma FromEmptyConsistent(cap: int, events: seq<Inbound>)
    requires cap >= 1
    ensures Consistent(Replay(Empty, cap, events), cap)
    ensures forall k :: k in Replay(Empty, cap, events).members ==> 0 < |Replay(Empty, cap, events).members[k]| <= cap
  {
    ReplayConsistent(Empty, cap, events);
  }
}
