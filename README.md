# Store presence and store routes, modelled in Dafny

This project models the core of the mersiv backend.

The first part is the real-time presence server. `store_users` maps each store id to the set of Socket.IO sessions in that store. The handlers `join_store`, `leave_store`, `disconnect` and `handle_model_position_update` change that map and emit messages.

The second part is the in-memory logic of three store routes:
- `serialize_store`;
- the first-match position update of `update_store_model_position`;
- the partial update of `update_store`, which ignores fields left as None.

Files:

- `values.dfy` (module `Values`) holds:
  - Python values as payloads and documents carry them;
  - truthiness and `dict.get`;
  - `str()` of the printable values;
  - the decimal rendering of an int, with its round trip.
- `presence.dfy` (module `Presence`) defines the registry as a value: the keys in dict insertion order, plus the member sets. Each event is a pure function from a registry to a new registry and the list of outbound messages. An outbound message is the event, where it was addressed, and the sessions it reaches at the moment of the emit. The lemmas state what each event does and prove that the capacity and "no empty room" invariants hold over any run of events.
- `socket_manager.dfy` (module `SocketManager`) defines `Server`, a class whose `storeUsers` map and `keyOrder` sequence the handlers update in place.
  - Each handler method is proved to leave the state and emit the messages that the matching `Presence` function gives, and to keep `Valid()`.
  - `Disconnect` loops over a snapshot of the keys, as the source's `list(store_users.keys())` does.
  - Five methods walk through a capacity-2 store: two joins, a refused third join, a relayed edit, a disconnect and a leave.
- `stores.dfy` (module `Stores`) holds the store routes. What `find_one` returned is an input (`Lookup`). A `$set` write is a map union. The current time is a parameter.
  - `SetModelPosition` is the source's loop: it works in place on an array, with a found flag and a `break`.

Points the code settles:

- **The room is created first.** `join_store` creates the room entry before the capacity check. With a capacity of 0, a refused join therefore leaves an empty room behind (`ZeroCapacityLeavesEmptyRoom`). The "no empty room" invariant is proved for a capacity of at least 1.
- **Rejoining a room re-broadcasts.** A session that joins a room it is already in changes nothing in the registry. The count is still broadcast again and the capacity sent again.
- **One session can be in several stores.** `join_store` records one `session['store_id']` per session but never removes the session from its previous store, so a session can be in several stores at once. `disconnect` therefore scans every room.
- **Relayed edits do not check membership.** Edits are relayed to the named store whether or not the sender is a member.
- **Store ids are hashed the Python way.**
  - A str id and an ObjectId id are distinct keys.
  - Numbers are compared by value, so `1`, `1.0` and `True` are one key (`RoomKey.Number`).
  - A list or dict id makes the dict lookup raise `TypeError`, so nothing changes.

## Model

| member | source | states |
|---|---|---|
| Values.Truthy | app/socket_manager.py:47 | Python's `bool(v)`: None, False, zero and the empty str, list and dict are falsy, everything else truthy |
| Values.Get | app/socket_manager.py:45 | `d.get(key)`: the entry when the key is present, None otherwise |
| Values.DecimalString | app/socket_manager.py:62 | `str(n)` of an int: a minus sign exactly when n is negative, then at least one decimal digit, with no leading zero |
| Values.PyStr | app/routes/stores.py:20 | `str(v)` of a printable value: an int reads back as itself, a str is itself, an ObjectId is its hex text, None is "None", and a bool is "True" or "False" |
| Values.Digits | app/socket_manager.py:62 | an int renders as a non-empty string of decimal digits with no leading zero |
| Values.DigitsRoundTrip | app/socket_manager.py:62 | reading the digits back gives the number |
| Values.DecimalRoundTrip | app/socket_manager.py:62 | the capacity printed in the refusal message reads back as the capacity, negative values included |
| Presence.StoreIdOf | app/socket_manager.py:45-49 | a join/leave payload is accepted exactly when it is a non-empty str or a dict whose 'store_id' is truthy; a str payload is its own store id, and a dict payload's store id is its 'store_id' entry |
| Presence.RoomKeyOf | app/socket_manager.py:53 | the dict key a store id becomes: none for None, list and dict ids (the lookup raises TypeError); a str id is keyed by its text, an ObjectId by its hex, and an int, float or bool by its numeric value |
| Presence.RoomKeyOfIsPythonEquality | app/socket_manager.py:53 | two hashable store ids name the same room exactly when Python's `==` holds between them: same text for str, same hex for ObjectId, same numeric value across int, float and bool, never across kinds |
| Presence.RoomKeysFollowPythonHashing | app/socket_manager.py:53 | `1`, `1.0` and `True` name one store and `0` and `False` another; `0` and `1` are different stores, and so are `0.5` and `0`; the str "1" and the int 1 are different stores; a str and an ObjectId with the same text are different stores |
| Presence.RoomOf | app/socket_manager.py:45-53 | the room a join/leave payload names: a non-empty str is the room of that text; a dict names a room exactly when its 'store_id' is truthy and hashable, and then the room is that id's key; any other payload, the empty str included, names none |
| Presence.StoreFullMessage | app/socket_manager.py:62 | the refusal text starts "Store is full. Maximum ", ends " users allowed.", and the text between is `str(cap)`, which reads back as the capacity |
| Presence.JoinRoom | app/socket_manager.py:53-86 | a join to a known key leaves that room present; only the joiner can enter it; the joiner is in the room exactly when two messages go out; a refusal is sent to the joiner alone |
| Presence.Join | app/socket_manager.py:41-86 | join_store: a payload naming no usable store changes nothing; every other room is left exactly as it was, and no room other than the named one appears |
| Presence.JoinIgnoresMalformed | app/socket_manager.py:45-49 | any other payload leaves the registry unchanged and emits nothing |
| Presence.JoinRejectsWhenFull | app/socket_manager.py:57-64 | a newcomer to a room holding at least the capacity gets only 'store_full' with "Store is full. Maximum N users allowed.", sent to itself alone, and the room is unchanged |
| Presence.StoreFullMessageForTwo | app/socket_manager.py:61-63 | with capacity 2 the refusal message reads "Store is full. Maximum 2 users allowed." |
| Presence.JoinAdmits | app/socket_manager.py:53-86 | an admitted join puts the session in the room, appending a new room at the end of the key order; it then emits 'user_count' with the new size to the whole room, followed by 'max_users' to the joiner |
| Presence.JoinIsIdempotentForMember | app/socket_manager.py:59-67 | a session joining a room it is already in leaves the registry as it was, yet the count and the capacity are emitted again |
| Presence.JoinCountWithinCapacity | app/socket_manager.py:78-83 | a 'user_count' broadcast by a join never exceeds the capacity when the registry was within capacity |
| Presence.JoinPreserves | app/socket_manager.py:53-67 | a join keeps the key order consistent with the map; it keeps every room within a non-negative capacity; with capacity at least 1 it keeps every room non-empty |
| Presence.JoinRoomPreserves | app/socket_manager.py:53-67 | a join to a known room keeps the same three invariants |
| Presence.JoinRoomShape | app/socket_manager.py:53-67 | a join changes only its own room: the room is created at the end of the key order if new; it keeps its members when the join is refused and gains the session when admitted |
| Presence.ZeroCapacityLeavesEmptyRoom | app/socket_manager.py:53-64 | with capacity 0 a refused join to a new store leaves an empty room, because the room is created before the check |
| Presence.LeaveRoom | app/socket_manager.py:104-111 | removing a session from a room creates no room; a room that survives has lost exactly that session; at most one message goes out, to a non-empty set of recipients without the leaver |
| Presence.Leave | app/socket_manager.py:96-111 | leave_store: a payload naming no usable store changes nothing; no room is created; the leaver never receives a message |
| Presence.LeaveIgnoresNonMember | app/socket_manager.py:99-104 | leaving a store one is not in, or naming no usable store, changes nothing and emits nothing |
| Presence.LeaveRemoves | app/socket_manager.py:104-111 | leaving removes the session; a room left empty is deleted with no message; otherwise the remaining members get 'user_count' with the new size |
| Presence.LeaveRoomPreserves | app/socket_manager.py:104-111 | removing a member keeps the key order consistent, every room within capacity and every room non-empty |
| Presence.LeaveRoomEffect | app/socket_manager.py:104-111 | the room survives a removal unless the session was alone in it, and it loses exactly that session |
| Presence.LeaveRoomTouchesOnlyItsRoom | app/socket_manager.py:104-111 | removing a member from one room leaves every other room as it was |
| Presence.Without | app/socket_manager.py:36 | deleting a key from the insertion order removes exactly that key and keeps the others distinct |
| Presence.WithoutSplices | app/socket_manager.py:36 | `del` splices the key out of the insertion order: the keys before it and after it keep their relative order |
| Presence.WithoutAbsent | app/socket_manager.py:36 | deleting a key that is not in the order leaves the order as it was |
| Presence.DisconnectFrom | app/socket_manager.py:32-38 | the disconnect loop over a list of keys creates no room, emits at most one message per key, and never messages the leaving session |
| Presence.Disconnect | app/socket_manager.py:28-38 | disconnect scans the registry's own key order: no room is created, at most one message goes out per room, and none to the leaving session |
| Presence.DisconnectFromPreserves | app/socket_manager.py:32-38 | the disconnect loop keeps the key order consistent, every room within capacity and every room non-empty |
| Presence.DisconnectFromEffect | app/socket_manager.py:32-38 | the loop takes the session out of each room it visits, deleting the rooms it was alone in, and leaves every other room untouched |
| Presence.DisconnectFromSnoc | app/socket_manager.py:32-38 | scanning one more room after a prefix of the snapshot does exactly one more round of removal, appending its messages |
| Presence.DisconnectClears | app/socket_manager.py:32-38 | after a disconnect the session is in no room; exactly the rooms it was alone in are gone; every other room lost exactly that session |
| Presence.DisconnectFromOut | app/socket_manager.py:32-38 | the messages the loop emits are exactly `Broadcasts`: one 'user_count' per room that held the session and someone else, in key order, to the members left behind |
| Presence.Broadcasts | app/socket_manager.py:32-38 | the broadcasts a disconnect owes, read off the registry before it: at most one per scanned key, each to a non-empty set of remaining members without the leaver |
| Presence.BroadcastsFrame | app/socket_manager.py:32-38 | the owed broadcasts depend only on the rooms being scanned |
| Presence.BroadcastsAreRoomCounts | app/socket_manager.py:38 | every owed broadcast is a 'user_count' addressed to a room |
| Presence.BroadcastsAnnounce | app/socket_manager.py:33-38 | a room is announced exactly when it is scanned, held the session and held someone else |
| Presence.BroadcastsDistinct | app/socket_manager.py:32-38 | over a snapshot of distinct keys, no room is announced twice |
| Presence.BroadcastsOncePerRoom | app/socket_manager.py:32-38 | the owed broadcasts go to rooms only, each announced room held the session and someone else, and no room is announced twice |
| Presence.DisconnectBroadcasts | app/socket_manager.py:32-38 | a disconnect announces the new count to every room it left non-empty, exactly once each, and to no other room |
| Presence.RelayEdit | app/socket_manager.py:116-133 | the relay emits at most one 'model-position-changed', addressed to the store's room with the sender skipped, and it reaches the store's members except the sender |
| Presence.RelayNeverToSender | app/socket_manager.py:129-133 | a relayed edit never reaches its sender |
| Presence.RelayDropsIncomplete | app/socket_manager.py:118-127 | a payload that is not a dict, or lacks a truthy storeId, modelId or position, is dropped |
| Presence.RelayWellFormed | app/socket_manager.py:118-133 | a complete edit emits one 'model-position-changed' with its modelId and position to every member of the store except the sender, whether or not the sender is a member |
| Presence.Handle | app/socket_manager.py:27-116 | each event gives exactly its handler's step (`Join`, `Leave`, `Disconnect`, or `RelayEdit` with the registry unchanged); only a join creates a room, and only the one it names; an edit leaves the registry as it was; the sender of a leave, a disconnect or an edit never receives what that event emits |
| Presence.HandlePreserves | app/socket_manager.py:16 | every event keeps the registry consistent (key order, capacity, no empty room) when the capacity is at least 1 |
| Presence.ReplayConsistent | app/socket_manager.py:16 | any sequence of events keeps a consistent registry consistent |
| Presence.FromEmptyConsistent | app/config.py:8 | starting from an empty registry with a capacity of at least 1, no run of events ever puts more than the capacity in a room or keeps an empty room |
| SocketManager.Server.constructor | app/socket_manager.py:16 | the registry starts empty with the configured capacity (default 2) |
| SocketManager.Server.JoinStore | app/socket_manager.py:41-86 | the in-place join yields exactly the registry and messages of `Presence.Join`, keeps the invariants, and records the store in the session only when the session was admitted |
| SocketManager.Server.EnterRoom | app/socket_manager.py:53-86 | once the store id is a usable key, the in-place join yields exactly `Presence.JoinRoom`, keeps the invariants, and records the store in the session only on admission |
| SocketManager.Server.LeaveStore | app/socket_manager.py:96-111 | the in-place leave yields exactly the registry and messages of `Presence.Leave` and keeps the invariants |
| SocketManager.Server.DropMember | app/socket_manager.py:104-111 | removing a member in place yields exactly `Presence.LeaveRoom` and keeps the invariants |
| SocketManager.Server.Disconnect | app/socket_manager.py:28-38 | the loop over the key snapshot yields exactly `Presence.Disconnect`; afterwards the session is in no room, and every other member is kept |
| SocketManager.Server.DropFromEach | app/socket_manager.py:32-38 | the loop over the keys, one removal per key, yields exactly `Presence.DisconnectFrom` and keeps the invariants |
| SocketManager.Server.ModelPositionUpdate | app/socket_manager.py:116-133 | the relay reads the registry without changing it, emits exactly `Presence.RelayEdit`, and never addresses the sender |
| SocketManager.CapacityTwoFirstJoin | app/socket_manager.py:53-86 | the first join to a capacity-2 store, by a str payload, creates the room with that one session |
| SocketManager.CapacityTwoSecondJoin | app/socket_manager.py:45-86 | a second join by a dict payload puts both sessions in the room, and the count 2 goes to both |
| SocketManager.CapacityTwoRefusal | app/socket_manager.py:57-64 | a third join is refused with "Store is full. Maximum 2 users allowed." and the room is unchanged |
| SocketManager.CapacityTwoEdit | app/socket_manager.py:118-133 | an edit by one member of a two-member store reaches only the other |
| SocketManager.CapacityTwoDepartures | app/socket_manager.py:32-38 | a disconnect tells the remaining member the new count; the last leave deletes the store |
| Stores.SerializeStore | app/routes/stores.py:17-22 | None stays None; a stored document keeps every key and value except `_id`, which becomes its `str()` |
| Stores.SerializeStoreIdempotent | app/routes/stores.py:17-22 | serializing a serialized document changes nothing |
| Stores.SerializeStoreObjectId | app/routes/stores.py:20 | an ObjectId `_id` becomes its hex text |
| Stores.LoadStore | app/routes/stores.py:76-82 | an unparsable id is a 400 and a missing document a 404; otherwise the document found is used |
| Stores.GetStore | app/routes/stores.py:42-50 | get_store answers 400 "Invalid store ID format", 404 "Store not found", or the serialized document |
| Stores.ModelsOf | app/routes/stores.py:85-88 | `store.get("models", [])` as the loop sees it: a missing field is an empty list; a list is its items; an empty str or dict is an empty loop; any other value makes the loop raise |
| Stores.HasId | app/routes/stores.py:89 | `model["id"]` does not raise: the model is a dict holding an 'id' key |
| Stores.IsModel | app/routes/stores.py:89 | the test `model["id"] == modelId`: the model has an id and it is the str `modelId` |
| Stores.FindModel | app/routes/stores.py:88-92 | the scan stops at the first model whose id equals the requested one; every earlier model has a different id; it reports no match exactly when every model has an id and none equals the requested one; it reports a fault at the first model without an id |
| Stores.PositionValue | app/routes/stores.py:90 | `position.model_dump()` is a dict with exactly the keys x, y and z, truthy, holding floats from which the position reads back |
| Stores.WithPosition | app/routes/stores.py:90 | the new position replaces only the model's `position` field |
| Stores.SetModelPosition | app/routes/stores.py:85-95 | the in-place loop changes only the first matching model, and in it only its position; no match or a fault leaves the array untouched |
| Stores.Repositioned | app/routes/stores.py:88-92 | the models list after the loop keeps its length, and every model keeps whether it has an id and whether it matches |
| Stores.FindModelSameIds | app/routes/stores.py:88-92 | the scan's outcome depends only on which models have an id and which match |
| Stores.RepositionedIdempotent | app/routes/stores.py:85-95 | sending the same position twice changes nothing the second time |
| Stores.RepositionedChangesOnlyFirstMatch | app/routes/stores.py:88-92 | the update keeps the length and every model but the first match; the match keeps its id and every field but `position` |
| Stores.UpdateStoreModelPosition | app/routes/stores.py:72-109 | the route answers 400, 404 "Store not found" or 404 "Model not found in store"; a `models` value that cannot be scanned, or a model without an id before the first match, is a 500; otherwise it writes the repositioned models with `updatedAt` and returns the serialized result |
| Stores.NonNoneFields | app/routes/stores.py:124 | the update keeps exactly the fields whose value is not None, with their values |
| Stores.UpdateDict | app/routes/stores.py:124-125 | the `$set` document of update_store: `updatedAt` is the current time, and every other entry is a field the client gave a non-None value, with that value |
| Stores.SetFields | app/routes/stores.py:127-130 | a `$set` write: the document gains the given fields with their new values and keeps every other field |
| Stores.UpdateFieldsAreContent | app/models.py:27-33 | no StoreUpdate field is `_id` or `updatedAt` |
| Stores.PartialUpdateEffect | app/routes/stores.py:124-130 | the write replaces exactly the non-None fields and stamps `updatedAt`; a field given as None keeps its stored value, and so does `_id` |
| Stores.UpdateStore | app/routes/stores.py:112-133 | update_store answers 400/404 as get_store does; otherwise the result sets the non-None fields and `updatedAt`, turns `_id` into its `str()`, and every other field keeps its stored value |

## Left out

- The transport is not modelled:
  - Socket.IO rooms (`enter_room`, `leave_room`);
  - connection and the `connect` and catch-all handlers;
  - logging and `print`.
- Recipients are computed from the registry, not from the transport's rooms. These differ in two cases:
  - the disconnecting session has already left its rooms in the transport;
  - a store id equal to a session id would also address that session.
- Handlers run as one atomic step each. The interleaving of the async handlers at their `await` points is not modelled, and neither is the `try/except` that logs errors in `join_store`.
- Python floats are represented as reals. They are only copied and compared for equality, never computed on.
- `session['store_id']` is written and never read. It is kept as a ghost field (`sessionStoreId`).
- Presence.RelayEdit: a list `storeId` relays nothing, whereas Socket.IO would treat a list as several rooms.
- Stores.SerializeStore: requires the stored `_id` to be printable (an ObjectId, str, int, bool or None). A float or container `_id` is not modelled.
- Stores.SerializeStore: the in-place `store["_id"] = ...` is modelled as a returned map. Aliasing of the caller's dict is not modelled.
- Stores.UpdateStoreModelPosition: the models list is copied into an array for the in-place scan. The write-back is the array's contents.
- MongoDB is not modelled:
  - `find_one`, `update_one` and ObjectId parsing are a `Lookup` input;
  - the re-read after the write is taken to return what was written;
  - a store deleted concurrently between the write and the re-read is not modelled.
- `datetime.utcnow()` is a parameter.
- The other routes (`get_all_stores`, `create_store`, `delete_store`) and app/routes/widget.py are not part of this model. Neither are app/main.py, app/database.py and the pydantic validation in app/models.py: `StoreUpdate` is taken as its six fields.
